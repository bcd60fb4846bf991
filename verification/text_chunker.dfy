/**
 * The PDF processor's `TextChunker`: per-page normalisation, the paragraph-accumulating and
 * the word-window chunking modes, chunk records with their metadata, and the batched walk
 * over a document's pages in ascending page order.
 */
module TextChunker {
  import opened Wrappers
  import opened Strings
  import opened SortedKeys

  // ---------------------------------------------------------------------------------------
  // Configuration
  // ---------------------------------------------------------------------------------------

  /** The service settings the constructor reads. */
  datatype Settings = Settings(chunkSize: int, batchSize: int)

  /** The chunker's fields after construction. */
  datatype Config = Config(
    maxChunkSize: int,
    minChunkSize: int,
    overlap: int,
    respectParagraphs: bool,
    batchSize: int)

  /** Python truthiness of an optional integer argument: `None` and `0` are both falsy. */
  predicate Given(x: Option<int>) {
    x.Some? && x.value != 0
  }

  /** `TextChunker(max_chunk_size, min_chunk_size, overlap, respect_paragraphs)`: every size
      argument falls back to a share of the configured chunk size when it is falsy, so an
      explicit `0` cannot be configured. */
  function NewChunker(
    maxChunkSize: Option<int>, minChunkSize: Option<int>, overlap: Option<int>,
    respectParagraphs: bool, settings: Settings): (c: Config)
    ensures Given(maxChunkSize) ==> c.maxChunkSize == maxChunkSize.value
    ensures !Given(maxChunkSize) ==> c.maxChunkSize == settings.chunkSize
    ensures Given(minChunkSize) ==> c.minChunkSize == minChunkSize.value
    ensures !Given(minChunkSize) ==>
      4 * c.minChunkSize <= settings.chunkSize < 4 * c.minChunkSize + 4
    ensures Given(overlap) ==> c.overlap == overlap.value
    ensures !Given(overlap) ==> 10 * c.overlap <= settings.chunkSize < 10 * c.overlap + 10
    ensures c.respectParagraphs == respectParagraphs && c.batchSize == settings.batchSize
  {
    Config(
      if Given(maxChunkSize) then maxChunkSize.value else settings.chunkSize,
      if Given(minChunkSize) then minChunkSize.value else settings.chunkSize / 4,
      if Given(overlap) then overlap.value else settings.chunkSize / 10,
      respectParagraphs,
      settings.batchSize)
  }

  // ---------------------------------------------------------------------------------------
  // Chunks
  // ---------------------------------------------------------------------------------------

  datatype ChunkMetadata = ChunkMetadata(
    startOffset: int,
    hasOverlap: bool,
    chunkSize: int,
    overlapSize: int)

  datatype TextChunk = TextChunk(
    content: string,
    pageNumber: int,
    chunkIndex: int,
    wordCount: int,
    metadata: ChunkMetadata)

  /** `_create_chunk`: the chunk record with its word count and metadata. The start offset of
      a later chunk is the number of non-whitespace characters in its first `overlap` words. */
  function CreateChunk(cfg: Config, text: string, pageNum: int, chunkIndex: int): (c: TextChunk)
    ensures c.content == text && c.pageNumber == pageNum && c.chunkIndex == chunkIndex
    ensures c.wordCount == |Words(text)|
    ensures c.metadata.hasOverlap <==> chunkIndex > 0
    ensures chunkIndex <= 0 ==> c.metadata.startOffset == 0
    ensures chunkIndex > 0 ==> c.metadata.startOffset == OverlapLength(text, cfg.overlap)
    ensures 0 <= c.metadata.startOffset <= |text|
    ensures c.metadata.chunkSize == cfg.maxChunkSize && c.metadata.overlapSize == cfg.overlap
  {
    TextChunk(
      text, pageNum, chunkIndex, |Words(text)|,
      ChunkMetadata(
        if chunkIndex > 0 then OverlapLength(text, cfg.overlap) else 0,
        chunkIndex > 0,
        cfg.maxChunkSize,
        cfg.overlap))
  }

  /** `len(''.join(words[:overlap]))`: the characters of the first `overlap` words of `text`,
      counted without the whitespace between them (all but the last `-overlap` words when
      `overlap` is negative). */
  function OverlapLength(text: string, overlap: int): (n: nat)
    ensures n <= |text|
  {
    var ws := Words(text);
    var lead := PySlice(ws, 0, overlap);
    PySlicePrefix(ws, overlap);
    JoinPrefixLength(ws, |lead|);
    JoinedWordsLength(text);
    |Join("", lead)|
  }

  /** `s[:hi]` is a prefix of `s`. */
  lemma PySlicePrefix<T>(s: seq<T>, hi: int)
    ensures PySlice(s, 0, hi) == s[..|PySlice(s, 0, hi)|]
  {
  }

  /** The concatenation of a prefix of a list is no longer than that of the whole list. */
  lemma JoinPrefixLength(xs: seq<string>, k: nat)
    requires k <= |xs|
    ensures |Join("", xs[..k])| <= |Join("", xs)|
  {
    if 0 < k < |xs| {
      JoinAppend("", xs[..k], xs[k..]);
      assert xs[..k] + xs[k..] == xs;
    } else if k == |xs| {
      assert xs[..k] == xs;
    }
  }

  /** The words of a string hold no more characters than the string. */
  lemma {:induction false} JoinedWordsLength(s: string)
    ensures |Join("", Words(s))| <= |s|
    decreases |s|
  {
    if s != [] {
      if IsSpace(s[0]) {
        JoinedWordsLength(s[1..]);
      } else {
        var n := WordLen(s);
        JoinedWordsLength(s[n..]);
        if Words(s[n..]) != [] {
          JoinCons("", s[..n], Words(s[n..]));
        }
      }
    }
  }

  /** The chunks of one page: each content gets the next index, starting at 0. */
  function Numbered(cfg: Config, contents: seq<string>, pageNum: int): (cs: seq<TextChunk>)
    ensures |cs| == |contents|
    ensures forall i :: 0 <= i < |cs| ==>
      cs[i].chunkIndex == i && cs[i].pageNumber == pageNum && cs[i].content == contents[i]
  {
    if contents == [] then []
    else
      var n := |contents| - 1;
      Numbered(cfg, contents[..n], pageNum) + [CreateChunk(cfg, contents[n], pageNum, n)]
  }

  lemma NumberedSnoc(cfg: Config, contents: seq<string>, x: string, pageNum: int)
    ensures Numbered(cfg, contents + [x], pageNum)
         == Numbered(cfg, contents, pageNum) + [CreateChunk(cfg, x, pageNum, |contents|)]
  {
    assert (contents + [x])[..|contents|] == contents;
  }

  /** Each group of paragraphs or words joined with single spaces. */
  function JoinGroups(gs: seq<seq<string>>): (r: seq<string>)
    ensures |r| == |gs|
    ensures forall k :: 0 <= k < |gs| ==> r[k] == Join(" ", gs[k])
  {
    if gs == [] then [] else JoinGroups(gs[..|gs| - 1]) + [Join(" ", gs[|gs| - 1])]
  }

  lemma JoinGroupsSnoc(gs: seq<seq<string>>, g: seq<string>)
    ensures JoinGroups(gs + [g]) == JoinGroups(gs) + [Join(" ", g)]
  {
    assert (gs + [g])[..|gs|] == gs;
  }

  /** Appending the chunk of one more group, numbered by the current count. */
  lemma AppendGroupChunk(
    cfg: Config, closed: seq<seq<string>>, g: seq<string>, pageNum: int, chunks: seq<TextChunk>)
    requires chunks == Numbered(cfg, JoinGroups(closed), pageNum)
    ensures chunks + [CreateChunk(cfg, Join(" ", g), pageNum, |chunks|)]
         == Numbered(cfg, JoinGroups(closed + [g]), pageNum)
  {
    JoinGroupsSnoc(closed, g);
    NumberedSnoc(cfg, JoinGroups(closed), Join(" ", g), pageNum);
  }

  /** `chunks.append(self._create_chunk(...))` for the words or paragraphs of one group. */
  method AppendChunk(cfg: Config, ghost closed: seq<seq<string>>, g: seq<string>, pageNum: int,
                     chunks: seq<TextChunk>)
    returns (r: seq<TextChunk>)
    requires chunks == Numbered(cfg, JoinGroups(closed), pageNum)
    ensures r == Numbered(cfg, JoinGroups(closed + [g]), pageNum)
  {
    AppendGroupChunk(cfg, closed, g, pageNum, chunks);
    r := chunks + [CreateChunk(cfg, Join(" ", g), pageNum, |chunks|)];
  }

  // ---------------------------------------------------------------------------------------
  // Normalisation and paragraph splitting
  // ---------------------------------------------------------------------------------------

  /** The characters `[^\w\s.,!?-]` does not match. */
  predicate Kept(c: char) {
    IsWordChar(c) || IsSpace(c) || c in ".,!?-"
  }

  /** `re.sub(r'[^\w\s.,!?-]', '', s)`. */
  function DropSpecial(s: string): (r: string)
    ensures |r| <= |s|
    ensures forall i :: 0 <= i < |r| ==> Kept(r[i]) && r[i] in s
  {
    if s == [] then []
    else
      var rest := DropSpecial(s[1..]);
      if Kept(s[0]) then [s[0]] + rest else rest
  }

  /** Every kept character survives as often as it occurs, and no other character survives. */
  lemma {:induction false} DropSpecialCounts(s: string, c: char)
    ensures Kept(c) ==> multiset(DropSpecial(s))[c] == multiset(s)[c]
    ensures !Kept(c) ==> c !in DropSpecial(s)
    decreases |s|
  {
    if s != [] {
      DropSpecialCounts(s[1..], c);
      assert s == [s[0]] + s[1..];
    }
  }

  /** The filter works character by character, so it keeps the order of what it keeps. */
  lemma {:induction false} DropSpecialAppend(s: string, t: string)
    ensures DropSpecial(s + t) == DropSpecial(s) + DropSpecial(t)
    decreases |s|
  {
    if s == [] {
      assert s + t == t;
    } else {
      assert (s + t)[0] == s[0] && (s + t)[1..] == s[1..] + t;
      DropSpecialAppend(s[1..], t);
    }
  }

  /** Whitespace is never removed. */
  lemma {:induction false} DropSpecialBlank(b: string)
    requires IsBlank(b)
    ensures DropSpecial(b) == b
    decreases |b|
  {
    if b != [] {
      DropSpecialBlank(b[1..]);
      assert b == [b[0]] + b[1..];
    }
  }

  /** Whether whitespace runs are collapsed before or after the filter, collapsing the result
      gives the same text. */
  lemma {:induction false} DropCollapse(y: string)
    ensures CollapseSpaces(DropSpecial(CollapseSpaces(y))) == CollapseSpaces(DropSpecial(y))
    decreases |y|
  {
    if y != [] {
      if IsSpace(y[0]) {
        var n := SpaceRunLen(y);
        DropCollapse(y[n..]);
        DropCollapseRun(y, n);
      } else {
        DropCollapse(y[1..]);
        DropCollapseChar(y);
      }
    }
  }

  lemma DropSpecialCons(c: char, z: string)
    ensures DropSpecial([c] + z) == (if Kept(c) then [c] else []) + DropSpecial(z)
  {
    assert ([c] + z)[1..] == z;
  }

  lemma CollapseCons(c: char, z: string)
    requires !IsSpace(c)
    ensures CollapseSpaces([c] + z) == [c] + CollapseSpaces(z)
  {
    assert ([c] + z)[1..] == z;
  }

  /** The step of `DropCollapse` over a leading whitespace run. */
  lemma DropCollapseRun(y: string, n: nat)
    requires y != [] && IsSpace(y[0]) && n == SpaceRunLen(y)
    requires CollapseSpaces(DropSpecial(CollapseSpaces(y[n..])))
          == CollapseSpaces(DropSpecial(y[n..]))
    ensures CollapseSpaces(DropSpecial(CollapseSpaces(y))) == CollapseSpaces(DropSpecial(y))
  {
    var w := DropSpecial(CollapseSpaces(y[n..]));
    var v := DropSpecial(y[n..]);
    CollapseRunUnfold(y, n);
    DropSpecialCons(' ', CollapseSpaces(y[n..]));
    assert DropSpecial(CollapseSpaces(y)) == [' '] + w;
    DropSpecialRun(y, n);
    assert DropSpecial(y) == y[..n] + v;
    CollapseBlankPrefix(y[..n], v);
    SpaceThenCollapse(w, v);
  }

  lemma DropSpecialRun(y: string, n: nat)
    requires n <= |y| && IsBlank(y[..n])
    ensures DropSpecial(y) == y[..n] + DropSpecial(y[n..])
  {
    assert y == y[..n] + y[n..];
    DropSpecialAppend(y[..n], y[n..]);
    DropSpecialBlank(y[..n]);
  }

  /** A space in front of two texts that collapse alike: the results collapse alike too. */
  lemma SpaceThenCollapse(w: string, v: string)
    requires CollapseSpaces(w) == CollapseSpaces(v)
    ensures CollapseSpaces([' '] + w) == CollapseSpaces([' '] + v)
  {
    CollapseSpaceCons(' ', w);
    CollapseSpaceCons(' ', v);
    assert (w != [] && IsSpace(w[0])) <==> (v != [] && IsSpace(v[0]));
  }

  /** The step of `DropCollapse` over a leading character that is not whitespace. */
  lemma DropCollapseChar(y: string)
    requires y != [] && !IsSpace(y[0])
    requires CollapseSpaces(DropSpecial(CollapseSpaces(y[1..])))
          == CollapseSpaces(DropSpecial(y[1..]))
    ensures CollapseSpaces(DropSpecial(CollapseSpaces(y))) == CollapseSpaces(DropSpecial(y))
  {
    var z := CollapseSpaces(y[1..]);
    assert y == [y[0]] + y[1..];
    CollapseCons(y[0], y[1..]);
    DropSpecialCons(y[0], z);
    DropSpecialCons(y[0], y[1..]);
    if Kept(y[0]) {
      CollapseCons(y[0], DropSpecial(z));
      CollapseCons(y[0], DropSpecial(y[1..]));
    } else {
      assert [] + DropSpecial(z) == DropSpecial(z);
      assert [] + DropSpecial(y[1..]) == DropSpecial(y[1..]);
    }
  }

  /** Text in normal form: no whitespace at the ends, and every character is a space, a word
      character or one of `.,!?-`. */
  predicate Normal(r: string) {
    && Trimmed(r)
    && forall i :: 0 <= i < |r| ==> r[i] == ' ' || IsWordChar(r[i]) || r[i] in ".,!?-"
  }

  /** `_normalize_text`: whitespace runs become one space, characters other than word
      characters, whitespace and `.,!?-` are removed, and the ends are stripped. */
  function NormalizeText(text: string): (r: string)
    ensures Normal(r)
  {
    var collapsed := CollapseSpaces(text);
    CollapseSpacesSingleSpaced(text);
    var kept := DropSpecial(collapsed);
    var r := Strip(kept);
    StripInfix(kept);
    var off :| InfixAt(r, kept, off);
    forall i | 0 <= i < |r|
      ensures r[i] == ' ' || IsWordChar(r[i]) || r[i] in ".,!?-"
    {
      assert r[i] == kept[off + i];
      if IsSpace(r[i]) {
        var j :| 0 <= j < |collapsed| && collapsed[j] == r[i];
      }
    }
    r
  }

  /** Normalisation keeps the words of the text, each with its special characters removed:
      the words of the normalised text are those of the filtered input. */
  lemma NormalizeWords(text: string)
    ensures Words(NormalizeText(text)) == Words(DropSpecial(text))
  {
    var kept := DropSpecial(CollapseSpaces(text));
    assert NormalizeText(text) == Strip(kept);
    WordsStrip(kept);
    CollapseSpacesWords(kept);
    DropCollapse(text);
    CollapseSpacesWords(DropSpecial(text));
  }

  /** Position of the last `c` in `s[lo..hi]`, or -1. */
  function LastIndexOf(s: string, c: char, lo: nat, hi: nat): (j: int)
    requires lo <= hi <= |s|
    ensures j == -1 || (lo <= j < hi && s[j] == c)
    decreases hi
  {
    if hi <= lo then -1
    else if s[hi - 1] == c then hi - 1
    else LastIndexOf(s, c, lo, hi - 1)
  }

  /** Position of the last `"\r\n"` that starts in `s[lo..hi]`, or -1. */
  function LastCrLf(s: string, lo: nat, hi: nat): (j: int)
    requires lo <= hi <= |s|
    ensures j == -1 || (lo <= j < hi && j + 1 < |s| && s[j] == '\r' && s[j + 1] == '\n')
    decreases hi
  {
    if hi <= lo then -1
    else if s[hi - 1] == '\r' && hi < |s| && s[hi] == '\n' then hi - 1
    else LastCrLf(s, lo, hi - 1)
  }

  /** Length of the match of `\n\s*\n|\r\n\s*\r\n|\f` at position `i`, or 0 when it does not
      match there. The greedy `\s*` backs off to the last line break inside the whitespace run. */
  function SeparatorAt(s: string, i: nat): (n: nat)
    requires i <= |s|
    ensures i + n <= |s|
    ensures n > 0 ==> s[i] == '\n' || s[i] == '\r' || s[i] == '\U{000C}'
  {
    if i == |s| then 0
    else if s[i] == '\n' then
      var end := i + 1 + SpaceRunLen(s[i + 1..]);
      var j := LastIndexOf(s, '\n', i + 1, end);
      if j < 0 then 0 else j + 1 - i
    else if s[i] == '\r' && i + 1 < |s| && s[i + 1] == '\n' then
      var end := i + 2 + SpaceRunLen(s[i + 2..]);
      var j := LastCrLf(s, i + 2, end);
      if j < 0 then 0 else j + 2 - i
    else if s[i] == '\U{000C}' then 1
    else 0
  }

  /** `re.split` with the paragraph separator, scanning from `i` for the piece begun at `start`. */
  function SplitPieces(s: string, start: nat, i: nat): (ps: seq<string>)
    requires start <= i <= |s|
    ensures |ps| >= 1
    decreases |s| - i
  {
    if i == |s| then [s[start..]]
    else
      var n := SeparatorAt(s, i);
      if n > 0 then [s[start..i]] + SplitPieces(s, i + n, i + n)
      else SplitPieces(s, start, i + 1)
  }

  /** `[p.strip() for p in ps if p.strip()]`. */
  function StrippedNonBlank(ps: seq<string>): (r: seq<string>)
    ensures |r| <= |ps|
    ensures forall k :: 0 <= k < |r| ==> r[k] != [] && Trimmed(r[k])
  {
    if ps == [] then []
    else
      var p := Strip(ps[0]);
      (if p != [] then [p] else []) + StrippedNonBlank(ps[1..])
  }

  /** `_split_into_paragraphs`: non-empty, stripped paragraphs. */
  function SplitIntoParagraphs(text: string): (ps: seq<string>)
    ensures forall k :: 0 <= k < |ps| ==> ps[k] != [] && Trimmed(ps[k])
  {
    StrippedNonBlank(SplitPieces(text, 0, 0))
  }

  /** No line break and no form feed. */
  predicate NoBreaks(s: string) {
    forall k :: 0 <= k < |s| ==> s[k] != '\n' && s[k] != '\r' && s[k] != '\U{000C}'
  }

  /** Text without line breaks or form feeds is one piece. */
  lemma {:induction false} SplitPiecesPlain(s: string, start: nat, i: nat)
    requires start <= i <= |s|
    requires NoBreaks(s)
    ensures SplitPieces(s, start, i) == [s[start..]]
    decreases |s| - i
  {
    if i < |s| {
      SplitPiecesPlain(s, start, i + 1);
    }
  }

  /** Text without line breaks or form feeds is a single paragraph, or none when blank. */
  lemma ParagraphsOfPlainText(s: string)
    requires NoBreaks(s)
    ensures SplitIntoParagraphs(s) == if IsBlank(s) then [] else [Strip(s)]
  {
    SplitPiecesPlain(s, 0, 0);
    assert s[0..] == s;
    StripBlank(s);
  }

  /** Normalised text holds no line break and no form feed. */
  lemma NormalizedNoBreaks(text: string)
    ensures NoBreaks(NormalizeText(text))
  {
    var t := NormalizeText(text);
    forall k | 0 <= k < |t| ensures t[k] != '\n' && t[k] != '\r' && t[k] != '\U{000C}' {
      assert t[k] == ' ' || IsWordChar(t[k]) || t[k] in ".,!?-";
    }
  }

  /** A trimmed blank string is empty. */
  lemma TrimmedBlank(t: string)
    requires Trimmed(t) && IsBlank(t)
    ensures t == []
  {
  }

  /** Normalisation removes every line break, so the paragraph split of normalised text is the
      whole text, or nothing when the text is empty. */
  lemma NormalizedIsOneParagraph(text: string)
    ensures SplitIntoParagraphs(NormalizeText(text))
         == if NormalizeText(text) == [] then [] else [NormalizeText(text)]
  {
    var t := NormalizeText(text);
    NormalizedNoBreaks(text);
    ParagraphsOfPlainText(t);
    StripTrimmed(t);
    if IsBlank(t) {
      TrimmedBlank(t);
    }
  }

  // ---------------------------------------------------------------------------------------
  // Paragraph mode
  // ---------------------------------------------------------------------------------------

  /** The paragraph groups paragraph mode closes while reading `paras`, given the paragraphs
      `current` accumulated so far and their word count `size`. A group is closed when it is
      non-empty and the next paragraph would take it above `maxChunkSize` words; with a positive
      overlap the next group starts with the last paragraph of the closed one. */
  function ParaGroups(paras: seq<string>, current: seq<string>, size: int, cfg: Config)
    : seq<seq<string>>
    decreases |paras|
  {
    if paras == [] then (if current == [] then [] else [current])
    else
      var p := paras[0];
      var n := |Words(p)|;
      if size + n > cfg.maxChunkSize && current != [] then
        var carried := if cfg.overlap > 0 then current[|current| - 1..] else [];
        var carriedSize := if cfg.overlap > 0 then |Words(current[|current| - 1])| else 0;
        [current] + ParaGroups(paras[1..], carried + [p], carriedSize + n, cfg)
      else
        ParaGroups(paras[1..], current + [p], size + n, cfg)
  }

  /** A paragraph that closes the current group. */
  lemma ParaGroupsClose(
    p: string, rest: seq<string>, current: seq<string>, size: int, cfg: Config,
    carried: seq<string>, carriedSize: int)
    requires size + |Words(p)| > cfg.maxChunkSize && current != []
    requires carried == if cfg.overlap > 0 then current[|current| - 1..] else []
    requires carriedSize == if cfg.overlap > 0 then |Words(current[|current| - 1])| else 0
    ensures ParaGroups([p] + rest, current, size, cfg)
         == [current] + ParaGroups(rest, carried + [p], carriedSize + |Words(p)|, cfg)
  {
    assert ([p] + rest)[1..] == rest;
  }

  /** A paragraph that joins the current group. */
  lemma ParaGroupsJoin(p: string, rest: seq<string>, current: seq<string>, size: int, cfg: Config)
    requires !(size + |Words(p)| > cfg.maxChunkSize && current != [])
    ensures ParaGroups([p] + rest, current, size, cfg)
         == ParaGroups(rest, current + [p], size + |Words(p)|, cfg)
  {
    assert ([p] + rest)[1..] == rest;
  }

  /** The paragraph-mode chunk contents of a page. */
  function ParagraphContents(cfg: Config, t: string): seq<string> {
    JoinGroups(ParaGroups(SplitIntoParagraphs(t), [], 0, cfg))
  }

  // ---------------------------------------------------------------------------------------
  // Word mode
  // ---------------------------------------------------------------------------------------

  /** `[words[i:i + size] for i in range(start, len(words), step)]`. */
  function WindowsFrom(words: seq<string>, start: nat, step: nat, size: int)
    : seq<seq<string>>
    requires step > 0
    decreases |words| - start
  {
    if start >= |words| then []
    else [PySlice(words, start, start + size)] + WindowsFrom(words, start + step, step, size)
  }

  /** The first window, then the windows one step later. */
  lemma WindowsFromFirst(words: seq<string>, start: nat, step: nat, size: int)
    requires step > 0 && start < |words|
    ensures var ws := WindowsFrom(words, start, step, size);
      var rest := WindowsFrom(words, start + step, step, size);
      && |ws| == |rest| + 1
      && ws[0] == PySlice(words, start, start + size)
      && forall k :: 0 <= k < |rest| ==> ws[k + 1] == rest[k]
  {
  }

  /** The windows of at least `minSize` words, in order. */
  function KeepLong(ws: seq<seq<string>>, minSize: int): seq<seq<string>> {
    if ws == [] then []
    else
      var last := ws[|ws| - 1];
      KeepLong(ws[..|ws| - 1], minSize) + (if |last| >= minSize then [last] else [])
  }

  /** The kept windows are windows of the page, each of at least `minSize` words. */
  lemma {:induction false} KeepLongKept(ws: seq<seq<string>>, minSize: int)
    ensures |KeepLong(ws, minSize)| <= |ws|
    ensures forall k :: 0 <= k < |KeepLong(ws, minSize)| ==>
      KeepLong(ws, minSize)[k] in ws && |KeepLong(ws, minSize)[k]| >= minSize
  {
    if ws != [] {
      var front := ws[..|ws| - 1];
      KeepLongKept(front, minSize);
      forall w | w in front ensures w in ws {
        var j :| 0 <= j < |front| && front[j] == w;
        assert ws[j] == w;
      }
    }
  }

  lemma KeepLongSnoc(ws: seq<seq<string>>, w: seq<string>, minSize: int)
    ensures KeepLong(ws + [w], minSize)
         == KeepLong(ws, minSize) + (if |w| >= minSize then [w] else [])
  {
    assert (ws + [w])[..|ws|] == ws;
  }

  /** The word-mode chunk contents of a page, for a positive step. */
  function WindowContents(cfg: Config, t: string): seq<string>
    requires cfg.maxChunkSize - cfg.overlap > 0
  {
    var step := cfg.maxChunkSize - cfg.overlap;
    JoinGroups(KeepLong(WindowsFrom(Words(t), 0, step, cfg.maxChunkSize), cfg.minChunkSize))
  }

  // ---------------------------------------------------------------------------------------
  // Pages and documents
  // ---------------------------------------------------------------------------------------

  /** `ChunkingError`, raised for the `ValueError` a zero `range` step causes. */
  datatype ChunkingError = ZeroBatchSize | ZeroWindowStep(pageNumber: int)

  /** What `_process_page` returns for one page. */
  function PageChunks(cfg: Config, text: string, pageNum: int)
    : Result<seq<TextChunk>, ChunkingError>
  {
    NormalizedPageChunks(cfg, NormalizeText(text), pageNum)
  }

  /** The chunks of a page whose text is already normalised. */
  function NormalizedPageChunks(cfg: Config, t: string, pageNum: int)
    : Result<seq<TextChunk>, ChunkingError>
  {
    if cfg.respectParagraphs then Ok(Numbered(cfg, ParagraphContents(cfg, t), pageNum))
    else if cfg.maxChunkSize - cfg.overlap == 0 then Err(ZeroWindowStep(pageNum))
    else if cfg.maxChunkSize - cfg.overlap < 0 then Ok([])
    else Ok(Numbered(cfg, WindowContents(cfg, t), pageNum))
  }

  /** The paragraph branch of `_process_page`, over the page's paragraphs. */
  method ChunkParagraphs(cfg: Config, paragraphs: seq<string>, pageNum: int)
    returns (chunks: seq<TextChunk>)
    ensures chunks == Numbered(cfg, JoinGroups(ParaGroups(paragraphs, [], 0, cfg)), pageNum)
  {
    chunks := [];
    var current: seq<string> := [];
    var currentSize := 0;
    ghost var closed: seq<seq<string>> := [];
    assert paragraphs[0..] == paragraphs;
    ghost var target := ParaGroups(paragraphs[0..], current, currentSize, cfg);
    assert closed + target == target;
    for k := 0 to |paragraphs|
      invariant chunks == Numbered(cfg, JoinGroups(closed), pageNum)
      invariant closed + ParaGroups(paragraphs[k..], current, currentSize, cfg) == target
    {
      var para := paragraphs[k];
      var paraSize := |Words(para)|;
      ghost var closedBefore, currentBefore, sizeBefore := closed, current, currentSize;
      var closing := currentSize + paraSize > cfg.maxChunkSize && current != [];
      if closing {
        chunks := AppendChunk(cfg, closed, current, pageNum, chunks);
        closed := closed + [current];
        if cfg.overlap > 0 && current != [] {
          current := current[|current| - 1..];
          currentSize := |Words(current[0])|;
        } else {
          current := [];
          currentSize := 0;
        }
      }
      current := current + [para];
      currentSize := currentSize + paraSize;
      if closing {
        ParaStepClose(paragraphs, k, closedBefore, currentBefore, sizeBefore, cfg, target,
                      closed, current, currentSize);
      } else {
        ParaStepJoin(paragraphs, k, closed, currentBefore, sizeBefore, cfg, target,
                     current, currentSize);
      }
    }
    assert paragraphs[|paragraphs|..] == [];
    if current != [] {
      assert target == closed + [current];
      chunks := AppendChunk(cfg, closed, current, pageNum, chunks);
      closed := closed + [current];
    } else {
      assert target == closed + [];
      assert closed + [] == closed;
    }
  }

  /** A loop step of `ChunkParagraphs` that closes the current group and starts the next one
      with the carried paragraph, if any, and the new one. */
  lemma ParaStepClose(paragraphs: seq<string>, k: nat, closed: seq<seq<string>>,
                      current: seq<string>, size: int, cfg: Config, target: seq<seq<string>>,
                      closed': seq<seq<string>>, current': seq<string>, size': int)
    requires k < |paragraphs|
    requires size + |Words(paragraphs[k])| > cfg.maxChunkSize && current != []
    requires closed + ParaGroups(paragraphs[k..], current, size, cfg) == target
    requires closed' == closed + [current]
    requires current' == (if cfg.overlap > 0 then current[|current| - 1..] else []) + [paragraphs[k]]
    requires size' == (if cfg.overlap > 0 then |Words(current[|current| - 1])| else 0)
                      + |Words(paragraphs[k])|
    ensures closed' + ParaGroups(paragraphs[k + 1..], current', size', cfg) == target
  {
    assert paragraphs[k..] == [paragraphs[k]] + paragraphs[k + 1..];
    ParaGroupsClose(paragraphs[k], paragraphs[k + 1..], current, size, cfg,
      if cfg.overlap > 0 then current[|current| - 1..] else [],
      if cfg.overlap > 0 then |Words(current[|current| - 1])| else 0);
  }

  /** A loop step of `ChunkParagraphs` that adds the paragraph to the current group. */
  lemma ParaStepJoin(paragraphs: seq<string>, k: nat, closed: seq<seq<string>>,
                     current: seq<string>, size: int, cfg: Config, target: seq<seq<string>>,
                     current': seq<string>, size': int)
    requires k < |paragraphs|
    requires !(size + |Words(paragraphs[k])| > cfg.maxChunkSize && current != [])
    requires closed + ParaGroups(paragraphs[k..], current, size, cfg) == target
    requires current' == current + [paragraphs[k]] && size' == size + |Words(paragraphs[k])|
    ensures closed + ParaGroups(paragraphs[k + 1..], current', size', cfg) == target
  {
    assert paragraphs[k..] == [paragraphs[k]] + paragraphs[k + 1..];
    ParaGroupsJoin(paragraphs[k], paragraphs[k + 1..], current, size, cfg);
  }



  /** The word branch of `_process_page` for a positive step, over the page's words. */
  method ChunkWords(cfg: Config, words: seq<string>, pageNum: int) returns (chunks: seq<TextChunk>)
    requires cfg.maxChunkSize - cfg.overlap > 0
    ensures chunks == Numbered(cfg, JoinGroups(KeepLong(
      WindowsFrom(words, 0, cfg.maxChunkSize - cfg.overlap, cfg.maxChunkSize),
      cfg.minChunkSize)), pageNum)
  {
    var step: nat := cfg.maxChunkSize - cfg.overlap;
    chunks := [];
    var i: nat := 0;
    ghost var seen: seq<seq<string>> := [];
    ghost var target := WindowsFrom(words, 0, step, cfg.maxChunkSize);
    while i < |words|
      invariant seen + WindowsFrom(words, i, step, cfg.maxChunkSize) == target
      invariant chunks == Numbered(cfg, JoinGroups(KeepLong(seen, cfg.minChunkSize)), pageNum)
      decreases |words| - i
    {
      var chunkWords := PySlice(words, i, i + cfg.maxChunkSize);
      ghost var seenBefore := seen;
      chunks := AppendWindow(cfg, seen, chunkWords, pageNum, chunks);
      seen := seen + [chunkWords];
      WindowStep(words, i, step, cfg.maxChunkSize, seenBefore, seen, target);
      i := i + step;
    }
    WindowsDone(words, i, step, cfg.maxChunkSize, seen, target);
  }

  /** The body of the window loop of `_process_page`: a window of at least `min_chunk_size`
      words becomes the next chunk, a shorter one is dropped. */
  method AppendWindow(cfg: Config, ghost seen: seq<seq<string>>, chunkWords: seq<string>,
                      pageNum: int, chunks: seq<TextChunk>)
    returns (r: seq<TextChunk>)
    requires chunks == Numbered(cfg, JoinGroups(KeepLong(seen, cfg.minChunkSize)), pageNum)
    ensures r == Numbered(cfg, JoinGroups(KeepLong(seen + [chunkWords], cfg.minChunkSize)), pageNum)
  {
    KeepLongSnoc(seen, chunkWords, cfg.minChunkSize);
    if |chunkWords| >= cfg.minChunkSize {
      r := AppendChunk(cfg, KeepLong(seen, cfg.minChunkSize), chunkWords, pageNum, chunks);
    } else {
      assert KeepLong(seen, cfg.minChunkSize) + [] == KeepLong(seen, cfg.minChunkSize);
      r := chunks;
    }
  }

  /** A loop step of `ChunkWords`: the window at `i` is the next one of the page. */
  lemma WindowStep(words: seq<string>, i: nat, step: nat, size: int, seen: seq<seq<string>>,
                   seen': seq<seq<string>>, target: seq<seq<string>>)
    requires step > 0 && i < |words|
    requires seen + WindowsFrom(words, i, step, size) == target
    requires seen' == seen + [PySlice(words, i, i + size)]
    ensures seen' + WindowsFrom(words, i + step, step, size) == target
  {
    WindowsFromCons(words, i, step, size);
    AppendAssoc(seen, [PySlice(words, i, i + size)], WindowsFrom(words, i + step, step, size));
  }

  /** Past the last word there are no windows left. */
  lemma WindowsDone(words: seq<string>, i: nat, step: nat, size: int, seen: seq<seq<string>>,
                    target: seq<seq<string>>)
    requires step > 0 && i >= |words|
    requires seen + WindowsFrom(words, i, step, size) == target
    ensures seen == target
  {
    assert seen + [] == seen;
  }

  lemma WindowsFromCons(words: seq<string>, start: nat, step: nat, size: int)
    requires step > 0 && start < |words|
    ensures WindowsFrom(words, start, step, size)
         == [PySlice(words, start, start + size)] + WindowsFrom(words, start + step, step, size)
  {
  }

  lemma AppendAssoc<T>(a: seq<T>, b: seq<T>, c: seq<T>)
    ensures a + (b + c) == a + b + c
  {
  }


  /** `_process_page` after normalisation: chunk by paragraphs or by word windows. A zero
      window step is the `ValueError` of `range`; a negative one makes the range empty. */
  method ChunkNormalized(cfg: Config, t: string, pageNum: int)
    returns (r: Result<seq<TextChunk>, ChunkingError>)
    ensures r == NormalizedPageChunks(cfg, t, pageNum)
  {
    var step := cfg.maxChunkSize - cfg.overlap;
    if cfg.respectParagraphs {
      var chunks := ChunkParagraphs(cfg, SplitIntoParagraphs(t), pageNum);
      r := Ok(chunks);
    } else if step == 0 {
      r := Err(ZeroWindowStep(pageNum));
    } else if step < 0 {
      r := Ok([]);
    } else {
      var chunks := ChunkWords(cfg, Words(t), pageNum);
      r := Ok(chunks);
    }
  }

  /** `_process_page`: normalise the text, then chunk it. */
  method ProcessPage(cfg: Config, text: string, pageNum: int)
    returns (r: Result<seq<TextChunk>, ChunkingError>)
    ensures r == PageChunks(cfg, text, pageNum)
  {
    var t := NormalizeText(text);
    r := ChunkNormalized(cfg, t, pageNum);
  }

  /** A page's `text` entry: `None` when the key is missing or holds `None`. */
  type Pages = map<int, Option<string>>

  /** `not content.get('text')`: the page is skipped. */
  predicate NoText(text: Option<string>) {
    text.None? || text.value == []
  }

  /** The chunks one page contributes: nothing when it has no text. */
  function PageResult(cfg: Config, pages: Pages, pageNum: int): Result<seq<TextChunk>, ChunkingError>
    requires pageNum in pages
  {
    if NoText(pages[pageNum]) then Ok([]) else PageChunks(cfg, pages[pageNum].value, pageNum)
  }

  /** The chunks of the pages `keys`, in that order; the first failing page fails them all. */
  function ChunkPages(cfg: Config, pages: Pages, keys: seq<int>): Result<seq<TextChunk>, ChunkingError>
    requires forall k :: 0 <= k < |keys| ==> keys[k] in pages
    decreases |keys|
  {
    if keys == [] then Ok([])
    else
      match ChunkPages(cfg, pages, keys[..|keys| - 1])
      case Err(e) => Err(e)
      case Ok(done) =>
        match PageResult(cfg, pages, keys[|keys| - 1])
        case Err(e) => Err(e)
        case Ok(cs) => Ok(done + cs)
  }

  /** What `chunk_document` returns: a zero batch size is the `ValueError` of `range`, a
      negative one makes the range empty, and otherwise the pages are chunked in ascending order. */
  function DocumentChunks(cfg: Config, pages: Pages): Result<seq<TextChunk>, ChunkingError> {
    if cfg.batchSize == 0 then Err(ZeroBatchSize)
    else if cfg.batchSize < 0 then Ok([])
    else ChunkPages(cfg, pages, Sorted(pages.Keys))
  }

  /** Once a prefix of the pages fails, the whole walk fails with the same error. */
  lemma {:induction false} ChunkPagesFailurePersists(cfg: Config, pages: Pages, keys: seq<int>, n: nat)
    requires n <= |keys|
    requires forall k :: 0 <= k < |keys| ==> keys[k] in pages
    requires ChunkPages(cfg, pages, keys[..n]).Err?
    ensures ChunkPages(cfg, pages, keys) == ChunkPages(cfg, pages, keys[..n])
    decreases |keys| - n
  {
    if n < |keys| {
      assert keys[..n + 1][..n] == keys[..n];
      ChunkPagesFailurePersists(cfg, pages, keys, n + 1);
    } else {
      assert keys[..n] == keys;
    }
  }

  /** Chunking one more page extends the walk by that page's chunks. */
  lemma ChunkPagesSnoc(cfg: Config, pages: Pages, keys: seq<int>, n: nat, done: seq<TextChunk>)
    requires n < |keys|
    requires forall k :: 0 <= k < |keys| ==> keys[k] in pages
    requires ChunkPages(cfg, pages, keys[..n]) == Ok(done)
    ensures PageResult(cfg, pages, keys[n]).Err? ==>
      ChunkPages(cfg, pages, keys[..n + 1]) == Err(PageResult(cfg, pages, keys[n]).error)
    ensures PageResult(cfg, pages, keys[n]).Ok? ==>
      ChunkPages(cfg, pages, keys[..n + 1]) == Ok(done + PageResult(cfg, pages, keys[n]).value)
  {
    assert keys[..n + 1][..n] == keys[..n];
  }

  /** One iteration of the page loop of `chunk_document`: a page without text is skipped
      with a warning, any other page is processed. */
  method ChunkPageEntry(cfg: Config, pages: Pages, pageNum: int)
    returns (r: Result<seq<TextChunk>, ChunkingError>)
    requires pageNum in pages
    ensures r == PageResult(cfg, pages, pageNum)
  {
    var text := pages[pageNum];
    if NoText(text) {
      return Ok([]);
    }
    r := ProcessPage(cfg, text.value, pageNum);
  }

  /** The batch loop of `chunk_document` over the sorted page numbers. */
  method ChunkBatches(cfg: Config, pages: Pages, pageNumbers: seq<int>)
    returns (r: Result<seq<TextChunk>, ChunkingError>)
    requires cfg.batchSize > 0
    requires forall k :: 0 <= k < |pageNumbers| ==> pageNumbers[k] in pages
    ensures r == ChunkPages(cfg, pages, pageNumbers)
  {
    var chunks: seq<TextChunk> := [];
    var i := 0;
    while i < |pageNumbers|
      invariant 0 <= i <= |pageNumbers|
      invariant ChunkPages(cfg, pages, pageNumbers[..i]) == Ok(chunks)
      decreases |pageNumbers| - i
    {
      var batch, next := ChunkBatch(cfg, pages, pageNumbers, i, chunks);
      if batch.Err? {
        return batch;
      }
      chunks := batch.value;
      i := next;
    }
    assert pageNumbers[..i] == pageNumbers;
    return Ok(chunks);
  }

  /** One batch of `chunk_document`, the pages `start` up to `start + batch_size`, appended in
      order to the chunks so far; a failing page ends the whole walk. */
  method ChunkBatch(cfg: Config, pages: Pages, pageNumbers: seq<int>, start: nat,
                    done: seq<TextChunk>)
    returns (r: Result<seq<TextChunk>, ChunkingError>, next: nat)
    requires cfg.batchSize > 0
    requires forall k :: 0 <= k < |pageNumbers| ==> pageNumbers[k] in pages
    requires start < |pageNumbers|
    requires ChunkPages(cfg, pages, pageNumbers[..start]) == Ok(done)
    ensures start < next <= |pageNumbers|
    ensures next == if start + cfg.batchSize <= |pageNumbers| then start + cfg.batchSize else |pageNumbers|
    ensures r.Ok? ==> ChunkPages(cfg, pages, pageNumbers[..next]) == r
    ensures r.Err? ==> ChunkPages(cfg, pages, pageNumbers) == r
  {
    // `page_numbers[i:i + batch_size]`, which stops at the end of the list
    next := if start + cfg.batchSize <= |pageNumbers| then start + cfg.batchSize else |pageNumbers|;
    var chunks := done;
    for n := start to next
      invariant ChunkPages(cfg, pages, pageNumbers[..n]) == Ok(chunks)
    {
      var step := ChunkNextPage(cfg, pages, pageNumbers, n, chunks);
      if step.Err? {
        return step, next;
      }
      chunks := step.value;
    }
    return Ok(chunks), next;
  }

  /** The page `pageNumbers[n]` of the batch loop, its chunks appended to those of the pages
      before it; a failing page ends the whole walk. */
  method ChunkNextPage(cfg: Config, pages: Pages, pageNumbers: seq<int>, n: nat,
                       done: seq<TextChunk>)
    returns (r: Result<seq<TextChunk>, ChunkingError>)
    requires forall k :: 0 <= k < |pageNumbers| ==> pageNumbers[k] in pages
    requires n < |pageNumbers|
    requires ChunkPages(cfg, pages, pageNumbers[..n]) == Ok(done)
    ensures r.Ok? ==> ChunkPages(cfg, pages, pageNumbers[..n + 1]) == r
    ensures r.Err? ==> ChunkPages(cfg, pages, pageNumbers) == r
  {
    ChunkPagesSnoc(cfg, pages, pageNumbers, n, done);
    var pageChunks := ChunkPageEntry(cfg, pages, pageNumbers[n]);
    if pageChunks.Err? {
      ChunkPagesFailurePersists(cfg, pages, pageNumbers, n + 1);
      return Err(pageChunks.error);
    }
    return Ok(done + pageChunks.value);
  }

  /** `chunk_document`: the pages in ascending page order, batch by batch. */
  method ChunkDocument(cfg: Config, pages: Pages) returns (r: Result<seq<TextChunk>, ChunkingError>)
    ensures r == DocumentChunks(cfg, pages)
  {
    var pageNumbers := Sorted(pages.Keys);
    if cfg.batchSize == 0 {
      r := Err(ZeroBatchSize);
    } else if cfg.batchSize < 0 {
      r := Ok([]);
    } else {
      r := ChunkBatches(cfg, pages, pageNumbers);
    }
  }

  // ---------------------------------------------------------------------------------------
  // Properties of word mode
  // ---------------------------------------------------------------------------------------

  lemma MulSucc(k: int, step: int)
    ensures (k + 1) * step == k * step + step
  {
  }

  lemma MulMonotone(a: int, b: int, c: nat)
    requires a <= b
    ensures a * c <= b * c
  {
    var d := b - a;
    assert b * c == a * c + d * c;
  }

  /** Window k of the windows from `start` begins k steps later, at `lo`. */
  lemma {:induction false} WindowsFromAt(words: seq<string>, start: nat, step: nat, size: int,
                                         k: nat, lo: int)
    requires step > 0
    requires k < |WindowsFrom(words, start, step, size)|
    requires lo == start + k * step
    ensures WindowsFrom(words, start, step, size)[k] == PySlice(words, lo, lo + size)
    decreases k
  {
    assert start < |words|;
    WindowsFromFirst(words, start, step, size);
    if k == 0 {
      assert lo == start;
    } else {
      var rest := WindowsFrom(words, start + step, step, size);
      MulSucc(k - 1, step);
      assert lo == start + step + (k - 1) * step;
      WindowsFromAt(words, start + step, step, size, k - 1, lo);
      assert WindowsFrom(words, start, step, size)[(k - 1) + 1] == rest[k - 1];
    }
  }

  /** There is one window per step that starts inside the word list. */
  lemma {:induction false} WindowsFromCount(words: seq<string>, start: nat, step: nat, size: int)
    requires step > 0
    ensures var n := |WindowsFrom(words, start, step, size)|;
      && (n == 0 <==> start >= |words|)
      && (n > 0 ==> start + (n - 1) * step < |words| <= start + n * step)
    decreases |words| - start
  {
    if start < |words| {
      WindowsFromCount(words, start + step, step, size);
      var m := |WindowsFrom(words, start + step, step, size)|;
      MulSucc(m - 1, step);
      MulSucc(m, step);
    }
  }

  /** Word mode: window k starts at word k * step and holds at most `size` words; there is one
      window per step that starts inside the word list. */
  lemma WordWindows(words: seq<string>, step: nat, size: int)
    requires step > 0
    ensures var ws := WindowsFrom(words, 0, step, size);
      && (ws == [] <==> words == [])
      && (words != [] ==> (|ws| - 1) * step < |words| <= |ws| * step)
      && (forall k :: 0 <= k < |ws| ==>
            0 <= k * step < |words| && ws[k] == PySlice(words, k * step, k * step + size))
      && (forall k :: 0 <= k < |ws| && 0 <= size ==> |ws[k]| <= size)
  {
    var ws := WindowsFrom(words, 0, step, size);
    WindowsFromCount(words, 0, step, size);
    forall k | 0 <= k < |ws|
      ensures 0 <= k * step < |words| && ws[k] == PySlice(words, k * step, k * step + size)
    {
      WordWindowAt(words, step, size, k);
    }
  }

  /** Window k of a page starts inside the word list, at word k * step. */
  lemma WordWindowAt(words: seq<string>, step: nat, size: int, k: nat)
    requires step > 0
    requires k < |WindowsFrom(words, 0, step, size)|
    requires (|WindowsFrom(words, 0, step, size)| - 1) * step < |words|
    ensures 0 <= k * step < |words|
    ensures WindowsFrom(words, 0, step, size)[k] == PySlice(words, k * step, k * step + size)
  {
    WindowsFromAt(words, 0, step, size, k, k * step);
    MulMonotone(0, k, step);
    MulMonotone(k, |WindowsFrom(words, 0, step, size)| - 1, step);
  }

  /** Windows `maxSize - overlap` words apart: a full window is followed by another one, and
      the last `overlap` words of the first are the first `overlap` words of the next. */
  lemma {:induction false} WindowsFromOverlap(words: seq<string>, start: nat, maxSize: int,
                                              overlap: int, k: nat)
    requires 0 < overlap < maxSize
    requires k < |WindowsFrom(words, start, maxSize - overlap, maxSize)|
    requires |WindowsFrom(words, start, maxSize - overlap, maxSize)[k]| == maxSize
    ensures var ws := WindowsFrom(words, start, maxSize - overlap, maxSize);
      && k + 1 < |ws|
      && |ws[k + 1]| >= overlap
      && ws[k][maxSize - overlap..] == ws[k + 1][..overlap]
    decreases k
  {
    var step := maxSize - overlap;
    var ws := WindowsFrom(words, start, step, maxSize);
    var rest := WindowsFrom(words, start + step, step, maxSize);
    WindowsFromFirst(words, start, step, maxSize);
    if k == 0 {
      WindowsFromFirst(words, start + step, step, maxSize);
      WindowSlicesOverlap(words, start, maxSize, overlap, ws[0], rest[0]);
    } else {
      WindowsFromOverlap(words, start + step, maxSize, overlap, k - 1);
    }
  }

  /** Word mode with `0 < overlap < max`: a full window is followed by another one, and the last
      `overlap` words of the first are the first `overlap` words of the next. */
  lemma ConsecutiveWindowsOverlap(words: seq<string>, maxSize: int, overlap: int, k: nat)
    requires 0 < overlap < maxSize
    requires k < |WindowsFrom(words, 0, maxSize - overlap, maxSize)|
    requires |WindowsFrom(words, 0, maxSize - overlap, maxSize)[k]| == maxSize
    ensures var ws := WindowsFrom(words, 0, maxSize - overlap, maxSize);
      && k + 1 < |ws|
      && |ws[k + 1]| >= overlap
      && ws[k][maxSize - overlap..] == ws[k + 1][..overlap]
  {
    WindowsFromOverlap(words, 0, maxSize, overlap, k);
  }

  /** Two windows of `maxSize` words, `maxSize - overlap` words apart, share `overlap` words. */
  lemma WindowSlicesOverlap(words: seq<string>, lo: nat, maxSize: int, overlap: int,
                            a: seq<string>, b: seq<string>)
    requires 0 < overlap < maxSize
    requires a == PySlice(words, lo, lo + maxSize) && |a| == maxSize
    requires b == PySlice(words, lo + maxSize - overlap, lo + maxSize - overlap + maxSize)
    ensures lo + maxSize - overlap < |words| && |b| >= overlap
    ensures a[maxSize - overlap..] == b[..overlap]
  {
    var step := maxSize - overlap;
    assert lo + maxSize <= |words|;
    assert a == words[lo..lo + maxSize];
    assert b[..overlap] == words[lo + step..lo + maxSize];
  }

  /** Windows at most `size` words long, starting at `start` and `step` words apart, together
      hold every word from `start` on, each at its own position. */
  lemma {:induction false} WindowsFromCover(words: seq<string>, start: nat, step: nat, size: int,
                                            j: nat)
    requires 0 < step <= size
    requires start <= j < |words|
    ensures exists k, p ::
      (0 <= k < |WindowsFrom(words, start, step, size)|
       && 0 <= p < |WindowsFrom(words, start, step, size)[k]|
       && WindowsFrom(words, start, step, size)[k][p] == words[j])
    decreases |words| - start
  {
    var ws := WindowsFrom(words, start, step, size);
    var rest := WindowsFrom(words, start + step, step, size);
    if j < start + step {
      WindowsFromFirst(words, start, step, size);
      WindowHolds(words, start, size, j);
      assert ws[0][j - start] == words[j];
    } else {
      WindowsFromCover(words, start + step, step, size, j);
      var k, p :| 0 <= k < |rest| && 0 <= p < |rest[k]| && rest[k][p] == words[j];
      WindowsFromFirst(words, start, step, size);
      assert ws[k + 1] == rest[k];
    }
  }

  /** A window holds each word from its start to its end at its own offset. */
  lemma WindowHolds(words: seq<string>, start: nat, size: int, j: nat)
    requires start <= j < |words| && j < start + size
    ensures var w := PySlice(words, start, start + size);
      j - start < |w| && w[j - start] == words[j]
  {
    var w := PySlice(words, start, start + size);
    assert w == words[start..if start + size <= |words| then start + size else |words|];
  }

  /** Word mode with `0 <= overlap < max`: every word of the page lies in some window. */
  lemma WindowsCoverWords(words: seq<string>, maxSize: int, overlap: int,
                          ws: seq<seq<string>>, j: nat)
    requires 0 <= overlap < maxSize
    requires ws == WindowsFrom(words, 0, maxSize - overlap, maxSize)
    requires j < |words|
    ensures exists k, p :: 0 <= k < |ws| && 0 <= p < |ws[k]| && ws[k][p] == words[j]
  {
    WindowsFromCover(words, 0, maxSize - overlap, maxSize, j);
  }

  /** Windows over a word list are word lists of at most `size` words. */
  lemma {:induction false} WindowsFromWords(words: seq<string>, start: nat, step: nat, size: int)
    requires step > 0 && size >= 0 && AllWords(words)
    ensures forall k :: 0 <= k < |WindowsFrom(words, start, step, size)| ==>
      AllWords(WindowsFrom(words, start, step, size)[k])
      && |WindowsFrom(words, start, step, size)[k]| <= size
    decreases |words| - start
  {
    if start < |words| {
      var ws := WindowsFrom(words, start, step, size);
      var rest := WindowsFrom(words, start + step, step, size);
      assert ws == [PySlice(words, start, start + size)] + rest;
      WindowsFromWords(words, start + step, step, size);
      WindowWords(words, ws[0], start, size);
      forall k | 1 <= k < |ws| ensures AllWords(ws[k]) && |ws[k]| <= size {
        assert ws[k] == rest[k - 1];
        assert AllWords(rest[k - 1]) && |rest[k - 1]| <= size;
      }
    }
  }

  /** Word mode: every chunk's word count is at least the minimum and at most the maximum. */
  lemma WordModeChunkSizes(cfg: Config, text: string, pageNum: int)
    requires !cfg.respectParagraphs && cfg.maxChunkSize - cfg.overlap > 0 && cfg.maxChunkSize >= 0
    ensures PageChunks(cfg, text, pageNum).Ok?
    ensures forall i :: 0 <= i < |PageChunks(cfg, text, pageNum).value| ==>
      cfg.minChunkSize <= PageChunks(cfg, text, pageNum).value[i].wordCount <= cfg.maxChunkSize
  {
    var t := NormalizeText(text);
    assert PageChunks(cfg, text, pageNum) == NormalizedPageChunks(cfg, t, pageNum);
    WindowMode(cfg, t, pageNum);
    WindowChunkSizes(cfg, t, pageNum);
  }

  /** Word mode with a positive step numbers the window contents. */
  lemma WindowMode(cfg: Config, t: string, pageNum: int)
    requires !cfg.respectParagraphs && cfg.maxChunkSize - cfg.overlap > 0
    ensures NormalizedPageChunks(cfg, t, pageNum) == Ok(Numbered(cfg, WindowContents(cfg, t), pageNum))
  {
  }

  lemma WindowChunkSizes(cfg: Config, t: string, pageNum: int)
    requires cfg.maxChunkSize - cfg.overlap > 0 && cfg.maxChunkSize >= 0
    ensures forall i :: 0 <= i < |Numbered(cfg, WindowContents(cfg, t), pageNum)| ==>
      cfg.minChunkSize <= Numbered(cfg, WindowContents(cfg, t), pageNum)[i].wordCount <= cfg.maxChunkSize
  {
    var cs := Numbered(cfg, WindowContents(cfg, t), pageNum);
    forall i | 0 <= i < |cs| ensures cfg.minChunkSize <= cs[i].wordCount <= cfg.maxChunkSize {
      WindowChunkSize(cfg, t, pageNum, i);
    }
  }

  lemma WindowChunkSize(cfg: Config, t: string, pageNum: int, i: nat)
    requires cfg.maxChunkSize - cfg.overlap > 0 && cfg.maxChunkSize >= 0
    requires i < |Numbered(cfg, WindowContents(cfg, t), pageNum)|
    ensures cfg.minChunkSize <= Numbered(cfg, WindowContents(cfg, t), pageNum)[i].wordCount
                             <= cfg.maxChunkSize
  {
    var step := cfg.maxChunkSize - cfg.overlap;
    var ws := WindowsFrom(Words(t), 0, step, cfg.maxChunkSize);
    var kept := KeepLong(ws, cfg.minChunkSize);
    var contents := JoinGroups(kept);
    assert contents == WindowContents(cfg, t);
    KeepLongKept(ws, cfg.minChunkSize);
    var w := kept[i];
    assert AllWords(w) && cfg.minChunkSize <= |w| <= cfg.maxChunkSize by {
      WindowsFromWords(Words(t), 0, step, cfg.maxChunkSize);
      assert w in ws;
    }
    WordsOfJoin(w);
    NumberedWordCount(cfg, contents, pageNum, i);
  }

  lemma {:induction false} NumberedWordCount(cfg: Config, contents: seq<string>, pageNum: int, i: nat)
    requires i < |contents|
    ensures Numbered(cfg, contents, pageNum)[i] == CreateChunk(cfg, contents[i], pageNum, i)
    decreases |contents|
  {
    var n := |contents| - 1;
    if i < n {
      NumberedWordCount(cfg, contents[..n], pageNum, i);
    }
  }

  /** A slice of a word list is a word list. */
  lemma WindowWords(words: seq<string>, w: seq<string>, lo: int, size: int)
    requires AllWords(words) && 0 <= lo < |words| && 0 <= size
    requires w == PySlice(words, lo, lo + size)
    ensures AllWords(w) && |w| <= size
  {
    forall m | 0 <= m < |w| ensures IsWord(w[m]) { assert w[m] == words[lo + m]; }
  }

  // ---------------------------------------------------------------------------------------
  // Properties of paragraph mode
  // ---------------------------------------------------------------------------------------

  /** How many paragraphs a group may hold and still exceed `maxChunkSize` words: the paragraph
      that opened it, preceded by the carried overlap paragraph when the overlap is positive. */
  function LongGroupLimit(cfg: Config): nat {
    if cfg.overlap > 0 then 2 else 1
  }

  /** The number of carried paragraphs at the head of every group after the first. */
  function Carried(cfg: Config): nat {
    if cfg.overlap > 0 then 1 else 0
  }

  /** The paragraphs of the groups, the carried head of every group after the first left out. */
  function Unshared(gs: seq<seq<string>>, dropHead: bool, cfg: Config): seq<string>
    decreases |gs|
  {
    if gs == [] then []
    else
      var g := gs[0];
      (if dropHead && g != [] then g[1..] else g) + Unshared(gs[1..], cfg.overlap > 0, cfg)
  }

  /** The paragraph that closes a group is carried into the next one, alone, when the overlap is
      positive. */
  lemma CarriedParagraph(current: seq<string>, cfg: Config, carried: seq<string>)
    requires current != []
    requires carried == if cfg.overlap > 0 then current[|current| - 1..] else []
    ensures |carried| == Carried(cfg)
    ensures cfg.overlap > 0 ==> carried[0] == current[|current| - 1]
    ensures WordTotal(carried) == if cfg.overlap > 0 then |Words(current[|current| - 1])| else 0
  {
    if cfg.overlap > 0 {
      assert carried == [] + [current[|current| - 1]];
      WordTotalSnoc([], current[|current| - 1]);
    }
  }

  /** Every group holds a paragraph, and one of more than `LongGroupLimit` paragraphs holds at
      most `maxChunkSize` words. */
  predicate Bounded(gs: seq<seq<string>>, cfg: Config) {
    forall k :: 0 <= k < |gs| ==>
      gs[k] != [] && (|gs[k]| > LongGroupLimit(cfg) ==> WordTotal(gs[k]) <= cfg.maxChunkSize)
  }

  /** Each group was closed because the next paragraph not carried over would have taken it
      above `maxChunkSize` words. */
  ghost predicate Maximal(gs: seq<seq<string>>, cfg: Config) {
    forall i :: 0 < i < |gs| ==> ClosedBefore(gs, i, cfg)
  }

  /** Group `i - 1` could not take the first paragraph of group `i` that was not carried over. */
  ghost predicate ClosedBefore(gs: seq<seq<string>>, i: int, cfg: Config)
    requires 0 < i < |gs|
  {
    Carried(cfg) < |gs[i]| && WordTotal(gs[i - 1]) + |Words(gs[i][Carried(cfg)])| > cfg.maxChunkSize
  }

  /** Each group starts with the last paragraph of the group before it. */
  ghost predicate Linked(gs: seq<seq<string>>) {
    forall i :: 0 < i < |gs| ==> LinkedAt(gs, i)
  }

  /** Group `i` starts with the last paragraph of group `i - 1`. */
  ghost predicate LinkedAt(gs: seq<seq<string>>, i: int)
    requires 0 < i < |gs|
  {
    gs[i - 1] != [] && gs[i] != [] && gs[i][0] == gs[i - 1][|gs[i - 1]| - 1]
  }

  /** The first group extends `current`. */
  predicate StartsWith(gs: seq<seq<string>>, current: seq<string>) {
    |gs| > 0 && |current| <= |gs[0]| && gs[0][..|current|] == current
  }

  lemma BoundedCons(g: seq<string>, tail: seq<seq<string>>, cfg: Config)
    requires g != [] && (|g| > LongGroupLimit(cfg) ==> WordTotal(g) <= cfg.maxChunkSize)
    requires Bounded(tail, cfg)
    ensures Bounded([g] + tail, cfg)
  {
    var gs := [g] + tail;
    forall k | 0 <= k < |gs|
      ensures gs[k] != [] && (|gs[k]| > LongGroupLimit(cfg) ==> WordTotal(gs[k]) <= cfg.maxChunkSize)
    {
      if k == 0 {
        assert gs[k] == g;
      } else {
        assert gs[k] == tail[k - 1];
      }
    }
  }

  lemma MaximalCons(g: seq<string>, tail: seq<seq<string>>, cfg: Config)
    requires tail != [] && Carried(cfg) < |tail[0]|
    requires WordTotal(g) + |Words(tail[0][Carried(cfg)])| > cfg.maxChunkSize
    requires Maximal(tail, cfg)
    ensures Maximal([g] + tail, cfg)
  {
    var gs := [g] + tail;
    forall i | 0 < i < |gs| ensures ClosedBefore(gs, i, cfg) {
      if i == 1 {
        assert gs[i - 1] == g && gs[i] == tail[0];
      } else {
        assert ClosedBefore(tail, i - 1, cfg);
        assert gs[i - 1] == tail[i - 2] && gs[i] == tail[i - 1];
      }
    }
  }

  /** The group closed in front of groups that start with its last paragraph. */
  lemma LinkedClose(current: seq<string>, start: seq<string>, tail: seq<seq<string>>)
    requires current != [] && |start| == 2 && start[0] == current[|current| - 1]
    requires StartsWith(tail, start) && Linked(tail)
    ensures Linked([current] + tail)
  {
    assert tail[0][..2] == start;
    assert tail[0][0] == start[0];
    LinkedCons(current, tail);
  }

  lemma LinkedCons(g: seq<string>, tail: seq<seq<string>>)
    requires g != [] && tail != [] && tail[0] != [] && tail[0][0] == g[|g| - 1]
    requires Linked(tail)
    ensures Linked([g] + tail)
  {
    var gs := [g] + tail;
    forall i | 0 < i < |gs| ensures LinkedAt(gs, i) {
      if i == 1 {
        assert gs[i - 1] == g && gs[i] == tail[0];
      } else {
        assert LinkedAt(tail, i - 1);
        assert gs[i - 1] == tail[i - 2] && gs[i] == tail[i - 1];
      }
    }
  }

  lemma StartsWithPrefix(gs: seq<seq<string>>, current: seq<string>, p: string)
    requires StartsWith(gs, current + [p])
    ensures StartsWith(gs, current)
  {
    assert gs[0][..|current|] == gs[0][..|current| + 1][..|current|];
  }

  /** Every group is non-empty, the first one extends the paragraphs accumulated so far, and a
      group of more than `LongGroupLimit` paragraphs holds at most `maxChunkSize` words. */
  lemma {:induction false} ParaGroupsShape(
    paras: seq<string>, current: seq<string>, size: int, cfg: Config, gs: seq<seq<string>>)
    requires size == WordTotal(current)
    requires |current| > LongGroupLimit(cfg) ==> size <= cfg.maxChunkSize
    requires gs == ParaGroups(paras, current, size, cfg)
    ensures Bounded(gs, cfg)
    ensures current != [] ==> StartsWith(gs, current)
    decreases |paras|
  {
    if paras != [] {
      var p := paras[0];
      var rest := paras[1..];
      var n := |Words(p)|;
      assert paras == [p] + rest;
      WordTotalSnoc(current, p);
      if size + n > cfg.maxChunkSize && current != [] {
        var carried := if cfg.overlap > 0 then current[|current| - 1..] else [];
        var carriedSize := if cfg.overlap > 0 then |Words(current[|current| - 1])| else 0;
        var tail := ParaGroups(rest, carried + [p], carriedSize + n, cfg);
        ParaGroupsClose(p, rest, current, size, cfg, carried, carriedSize);
        CarriedParagraph(current, cfg, carried);
        WordTotalSnoc(carried, p);
        ParaGroupsShape(rest, carried + [p], carriedSize + n, cfg, tail);
        assert gs == [current] + tail;
        BoundedCons(current, tail, cfg);
      } else {
        ParaGroupsJoin(p, rest, current, size, cfg);
        ParaGroupsShape(rest, current + [p], size + n, cfg, gs);
        if current != [] {
          StartsWithPrefix(gs, current, p);
        }
      }
    }
  }

  /** A group is closed only when the next paragraph, the first one not carried over, would take
      it above `maxChunkSize` words. */
  lemma {:induction false} ParaGroupsMaximal(
    paras: seq<string>, current: seq<string>, size: int, cfg: Config, gs: seq<seq<string>>)
    requires size == WordTotal(current)
    requires |current| > LongGroupLimit(cfg) ==> size <= cfg.maxChunkSize
    requires gs == ParaGroups(paras, current, size, cfg)
    ensures Maximal(gs, cfg)
    decreases |paras|
  {
    if paras != [] {
      var p := paras[0];
      var rest := paras[1..];
      var n := |Words(p)|;
      assert paras == [p] + rest;
      WordTotalSnoc(current, p);
      if size + n > cfg.maxChunkSize && current != [] {
        var carried := if cfg.overlap > 0 then current[|current| - 1..] else [];
        var carriedSize := if cfg.overlap > 0 then |Words(current[|current| - 1])| else 0;
        var tail := ParaGroups(rest, carried + [p], carriedSize + n, cfg);
        ParaGroupsClose(p, rest, current, size, cfg, carried, carriedSize);
        CarriedParagraph(current, cfg, carried);
        WordTotalSnoc(carried, p);
        ParaGroupsMaximal(rest, carried + [p], carriedSize + n, cfg, tail);
        ParaGroupsShape(rest, carried + [p], carriedSize + n, cfg, tail);
        assert gs == [current] + tail;
        assert tail[0][Carried(cfg)] == p by {
          assert tail[0][..|carried| + 1] == carried + [p];
        }
        MaximalCons(current, tail, cfg);
      } else {
        ParaGroupsJoin(p, rest, current, size, cfg);
        ParaGroupsMaximal(rest, current + [p], size + n, cfg, gs);
      }
    }
  }

  /** With a positive overlap every group after the first starts with the last paragraph of the
      group before it. */
  lemma {:induction false} ParaGroupsLinked(
    paras: seq<string>, current: seq<string>, size: int, cfg: Config, gs: seq<seq<string>>)
    requires cfg.overlap > 0
    requires size == WordTotal(current)
    requires |current| > LongGroupLimit(cfg) ==> size <= cfg.maxChunkSize
    requires gs == ParaGroups(paras, current, size, cfg)
    ensures Linked(gs)
    decreases |paras|
  {
    if paras != [] {
      var p := paras[0];
      var rest := paras[1..];
      var n := |Words(p)|;
      assert paras == [p] + rest;
      WordTotalSnoc(current, p);
      if size + n > cfg.maxChunkSize && current != [] {
        var carried := current[|current| - 1..];
        var carriedSize := |Words(current[|current| - 1])|;
        var tail := ParaGroups(rest, carried + [p], carriedSize + n, cfg);
        ParaGroupsClose(p, rest, current, size, cfg, carried, carriedSize);
        CarriedParagraph(current, cfg, carried);
        WordTotalSnoc(carried, p);
        ParaGroupsLinked(rest, carried + [p], carriedSize + n, cfg, tail);
        ParaGroupsShape(rest, carried + [p], carriedSize + n, cfg, tail);
        LinkedClose(current, carried + [p], tail);
      } else {
        ParaGroupsJoin(p, rest, current, size, cfg);
        ParaGroupsLinked(rest, current + [p], size + n, cfg, gs);
      }
    }
  }

  /** Leaving out the carried paragraphs, the groups hold exactly the paragraphs read, in order:
      paragraph mode loses none and repeats none. */
  lemma {:induction false} ParaGroupsUnshared(
    paras: seq<string>, current: seq<string>, size: int, cfg: Config, dropHead: bool)
    requires dropHead ==> current != []
    ensures Unshared(ParaGroups(paras, current, size, cfg), dropHead, cfg)
         == (if dropHead then current[1..] else current) + paras
    decreases |paras|
  {
    if paras == [] {
      UnsharedEnd(current, size, cfg, dropHead);
    } else {
      var p := paras[0];
      var rest := paras[1..];
      var n := |Words(p)|;
      assert paras == [p] + rest;
      if size + n > cfg.maxChunkSize && current != [] {
        var carried := if cfg.overlap > 0 then current[|current| - 1..] else [];
        var carriedSize := if cfg.overlap > 0 then |Words(current[|current| - 1])| else 0;
        ParaGroupsUnshared(rest, carried + [p], carriedSize + n, cfg, cfg.overlap > 0);
        UnsharedClose(p, rest, current, size, cfg, dropHead, carried, carriedSize);
      } else {
        ParaGroupsUnshared(rest, current + [p], size + n, cfg, dropHead);
        UnsharedJoin(p, rest, current, size, cfg, dropHead);
      }
    }
  }

  lemma UnsharedEnd(current: seq<string>, size: int, cfg: Config, dropHead: bool)
    requires dropHead ==> current != []
    ensures Unshared(ParaGroups([], current, size, cfg), dropHead, cfg)
         == (if dropHead then current[1..] else current) + []
  {
    if current != [] {
      var gs := ParaGroups([], current, size, cfg);
      assert gs == [current];
      assert Unshared(gs, dropHead, cfg)
          == (if dropHead then current[1..] else current) + Unshared([], cfg.overlap > 0, cfg);
    }
  }

  lemma UnsharedClose(p: string, rest: seq<string>, current: seq<string>, size: int, cfg: Config,
                      dropHead: bool, carried: seq<string>, carriedSize: int)
    requires dropHead ==> current != []
    requires size + |Words(p)| > cfg.maxChunkSize && current != []
    requires carried == if cfg.overlap > 0 then current[|current| - 1..] else []
    requires carriedSize == if cfg.overlap > 0 then |Words(current[|current| - 1])| else 0
    requires Unshared(ParaGroups(rest, carried + [p], carriedSize + |Words(p)|, cfg), cfg.overlap > 0, cfg)
          == (if cfg.overlap > 0 then (carried + [p])[1..] else carried + [p]) + rest
    ensures Unshared(ParaGroups([p] + rest, current, size, cfg), dropHead, cfg)
         == (if dropHead then current[1..] else current) + ([p] + rest)
  {
    var tail := ParaGroups(rest, carried + [p], carriedSize + |Words(p)|, cfg);
    ParaGroupsClose(p, rest, current, size, cfg, carried, carriedSize);
    CarriedParagraph(current, cfg, carried);
    assert (if cfg.overlap > 0 then (carried + [p])[1..] else carried + [p]) == [p];
    assert ([current] + tail)[1..] == tail;
  }

  lemma UnsharedJoin(p: string, rest: seq<string>, current: seq<string>, size: int, cfg: Config,
                     dropHead: bool)
    requires dropHead ==> current != []
    requires !(size + |Words(p)| > cfg.maxChunkSize && current != [])
    requires Unshared(ParaGroups(rest, current + [p], size + |Words(p)|, cfg), dropHead, cfg)
          == (if dropHead then (current + [p])[1..] else current + [p]) + rest
    ensures Unshared(ParaGroups([p] + rest, current, size, cfg), dropHead, cfg)
         == (if dropHead then current[1..] else current) + ([p] + rest)
  {
    ParaGroupsJoin(p, rest, current, size, cfg);
    if dropHead {
      assert (current + [p])[1..] == current[1..] + [p];
    }
  }


  /** Paragraph mode over a list of paragraphs: the groups are non-empty; a group of more than
      `LongGroupLimit` paragraphs holds at most `maxChunkSize` words; each group was closed only
      because the next fresh paragraph did not fit; with a positive overlap each group starts with
      the last paragraph of the one before; and, carried paragraphs left out, the groups are the
      paragraphs in order. */
  lemma ParagraphGroups(paras: seq<string>, cfg: Config, gs: seq<seq<string>>)
    requires gs == ParaGroups(paras, [], 0, cfg)
    ensures Bounded(gs, cfg) && Maximal(gs, cfg)
    ensures cfg.overlap > 0 ==> Linked(gs)
    ensures Unshared(gs, false, cfg) == paras
  {
    var none: seq<string> := [];
    assert WordTotal(none) == 0;
    ParaGroupsShape(paras, none, 0, cfg, gs);
    ParaGroupsMaximal(paras, none, 0, cfg, gs);
    if cfg.overlap > 0 {
      ParaGroupsLinked(paras, none, 0, cfg, gs);
    }
    ParaGroupsUnshared(paras, none, 0, cfg, false);
    assert none + paras == paras;
  }

  /** Because normalisation turns every line break into a space, paragraph mode sees a page as a
      single paragraph: it yields no chunk for a blank page and otherwise exactly one, holding the
      whole normalised text, whatever its length. */
  lemma ParagraphModeOneChunk(cfg: Config, text: string, pageNum: int)
    requires cfg.respectParagraphs
    ensures PageChunks(cfg, text, pageNum).Ok?
    ensures NormalizeText(text) == [] ==> PageChunks(cfg, text, pageNum).value == []
    ensures NormalizeText(text) != [] ==>
      |PageChunks(cfg, text, pageNum).value| == 1
      && PageChunks(cfg, text, pageNum).value[0].content == NormalizeText(text)
      && PageChunks(cfg, text, pageNum).value[0].chunkIndex == 0
  {
    var t := NormalizeText(text);
    assert PageChunks(cfg, text, pageNum) == NormalizedPageChunks(cfg, t, pageNum);
    assert NormalizedPageChunks(cfg, t, pageNum) == Ok(Numbered(cfg, ParagraphContents(cfg, t), pageNum));
    NormalizedIsOneParagraph(text);
    if t == [] {
      assert ParaGroups([], [], 0, cfg) == [];
    } else {
      assert ParaGroups([t], [], 0, cfg) == ParaGroups([], [t], |Words(t)|, cfg) == [[t]] by {
        ParaGroupsJoin(t, [], [], 0, cfg);
        assert [t] + [] == [t] && [] + [t] == [t];
      }
      assert Join(" ", [t]) == t;
    }
  }

  // ---------------------------------------------------------------------------------------
  // Properties of the document walk
  // ---------------------------------------------------------------------------------------

  /** Chunk `i` follows chunk `i - 1`: on the same page with the next index, or on a later page
      as that page's first chunk. */
  ghost predicate FollowsAt(cs: seq<TextChunk>, i: int)
    requires 0 < i < |cs|
  {
    || (cs[i - 1].pageNumber == cs[i].pageNumber && cs[i].chunkIndex == cs[i - 1].chunkIndex + 1)
    || (cs[i - 1].pageNumber < cs[i].pageNumber && cs[i].chunkIndex == 0)
  }

  /** Chunks in page order, numbered from 0 on each page. */
  ghost predicate Sequenced(cs: seq<TextChunk>) {
    && (cs != [] ==> cs[0].chunkIndex == 0)
    && forall i :: 0 < i < |cs| ==> FollowsAt(cs, i)
  }

  /** Every chunk comes from one of `keys`, a page with text. */
  ghost predicate FromPages(cs: seq<TextChunk>, pages: Pages, keys: seq<int>) {
    forall i :: 0 <= i < |cs| ==>
      cs[i].pageNumber in keys && cs[i].pageNumber in pages && !NoText(pages[cs[i].pageNumber])
  }

  ghost predicate StrictlyIncreasing(keys: seq<int>) {
    forall i, j :: 0 <= i < j < |keys| ==> keys[i] < keys[j]
  }

  /** The chunks of one page are numbered from 0 and carry that page's number. */
  lemma PageResultNumbered(cfg: Config, pages: Pages, pageNum: int, ps: seq<TextChunk>)
    requires pageNum in pages
    requires PageResult(cfg, pages, pageNum) == Ok(ps)
    ensures ps != [] ==> !NoText(pages[pageNum])
    ensures forall i :: 0 <= i < |ps| ==> ps[i].chunkIndex == i && ps[i].pageNumber == pageNum
  {
  }

  /** Chunks of earlier pages, then chunks of page `key`, all come from `front + [key]`. */
  lemma FromPagesAppend(done: seq<TextChunk>, ps: seq<TextChunk>, pages: Pages,
                        front: seq<int>, key: int)
    requires FromPages(done, pages, front)
    requires key in pages && (ps != [] ==> !NoText(pages[key]))
    requires forall i :: 0 <= i < |ps| ==> ps[i].pageNumber == key
    ensures FromPages(done + ps, pages, front + [key])
  {
    var cs := done + ps;
    forall i | 0 <= i < |cs|
      ensures cs[i].pageNumber in front + [key] && cs[i].pageNumber in pages
      ensures !NoText(pages[cs[i].pageNumber])
    {
      if i < |done| {
        assert cs[i] == done[i];
      } else {
        assert cs[i] == ps[i - |done|];
      }
    }
  }

  /** Chunks of pages listed before `key` in increasing order are of pages before `key`. */
  lemma EarlierPages(done: seq<TextChunk>, pages: Pages, front: seq<int>, key: int)
    requires FromPages(done, pages, front)
    requires StrictlyIncreasing(front + [key])
    ensures forall i :: 0 <= i < |done| ==> done[i].pageNumber < key
  {
    var keys := front + [key];
    forall i | 0 <= i < |done| ensures done[i].pageNumber < key {
      var m :| 0 <= m < |front| && front[m] == done[i].pageNumber;
      assert keys[m] == front[m] && keys[|front|] == key;
    }
  }

  /** A page's chunks appended after chunks of earlier pages keep the order. */
  lemma SequencedAppend(done: seq<TextChunk>, ps: seq<TextChunk>, pageNum: int)
    requires Sequenced(done)
    requires forall i :: 0 <= i < |done| ==> done[i].pageNumber < pageNum
    requires forall i :: 0 <= i < |ps| ==> ps[i].chunkIndex == i && ps[i].pageNumber == pageNum
    ensures Sequenced(done + ps)
  {
    var cs := done + ps;
    forall i | 0 < i < |cs| ensures FollowsAt(cs, i) {
      if i < |done| {
        assert FollowsAt(done, i);
        assert cs[i - 1] == done[i - 1] && cs[i] == done[i];
      } else if i == |done| {
        assert cs[i - 1] == done[i - 1] && cs[i] == ps[0];
      } else {
        assert cs[i - 1] == ps[i - 1 - |done|] && cs[i] == ps[i - |done|];
      }
    }
    if done == [] {
      assert cs == ps;
    }
  }

  /** A successful walk succeeded on every page. */
  lemma ChunkPagesOk(cfg: Config, pages: Pages, keys: seq<int>)
    requires keys != [] && forall k :: 0 <= k < |keys| ==> keys[k] in pages
    requires ChunkPages(cfg, pages, keys).Ok?
    ensures ChunkPages(cfg, pages, keys[..|keys| - 1]).Ok?
    ensures PageResult(cfg, pages, keys[|keys| - 1]).Ok?
    ensures ChunkPages(cfg, pages, keys).value
         == ChunkPages(cfg, pages, keys[..|keys| - 1]).value + PageResult(cfg, pages, keys[|keys| - 1]).value
  {
  }

  /** The chunks of one more page, with a number above all earlier ones, keep the walk's order. */
  lemma AppendPage(done: seq<TextChunk>, ps: seq<TextChunk>, pages: Pages, keys: seq<int>)
    requires keys != [] && StrictlyIncreasing(keys)
    requires Sequenced(done) && FromPages(done, pages, keys[..|keys| - 1])
    requires keys[|keys| - 1] in pages && (ps != [] ==> !NoText(pages[keys[|keys| - 1]]))
    requires forall i :: 0 <= i < |ps| ==>
      ps[i].chunkIndex == i && ps[i].pageNumber == keys[|keys| - 1]
    ensures Sequenced(done + ps) && FromPages(done + ps, pages, keys)
  {
    var front, key := keys[..|keys| - 1], keys[|keys| - 1];
    assert keys == front + [key];
    EarlierPages(done, pages, front, key);
    SequencedAppend(done, ps, key);
    FromPagesAppend(done, ps, pages, front, key);
  }

  /** Walking strictly increasing page numbers yields the chunks in page order, numbered from 0
      on each page, each from a listed page that has text. */
  lemma {:induction false} ChunkPagesSequenced(cfg: Config, pages: Pages, keys: seq<int>)
    requires forall k :: 0 <= k < |keys| ==> keys[k] in pages
    requires StrictlyIncreasing(keys)
    ensures ChunkPages(cfg, pages, keys).Ok? ==>
      Sequenced(ChunkPages(cfg, pages, keys).value)
      && FromPages(ChunkPages(cfg, pages, keys).value, pages, keys)
    decreases |keys|
  {
    if keys != [] && ChunkPages(cfg, pages, keys).Ok? {
      var front := keys[..|keys| - 1];
      ChunkPagesOk(cfg, pages, keys);
      ChunkPagesSequenced(cfg, pages, front);
      var ps := PageResult(cfg, pages, keys[|keys| - 1]).value;
      PageResultNumbered(cfg, pages, keys[|keys| - 1], ps);
      AppendPage(ChunkPages(cfg, pages, front).value, ps, pages, keys);
    }
  }

  /** `chunk_document`: the chunks come in ascending page order, numbered from 0 on each page,
      and each comes from a page of the document that has text. */
  lemma DocumentChunksOrdered(cfg: Config, pages: Pages)
    ensures DocumentChunks(cfg, pages).Ok? ==>
      Sequenced(DocumentChunks(cfg, pages).value)
      && FromPages(DocumentChunks(cfg, pages).value, pages, Sorted(pages.Keys))
  {
    if cfg.batchSize > 0 {
      var keys := Sorted(pages.Keys);
      ChunkPagesSequenced(cfg, pages, keys);
    }
  }
}
