/**
 * The summarizer's `TextProcessor`: input validation (strip, reject blank text, truncate) and
 * the clean-up of generated summaries (collapse whitespace, capitalise sentences, end with
 * punctuation), each also applied to a batch.
 */
module TextProcessor {
  import opened Wrappers
  import opened Strings

  const EmptyInput: string := "Input text is empty or invalid."

  // ---------------------------------------------------------------------------------------
  // validate_text
  // ---------------------------------------------------------------------------------------

  /** `validate_text`: blank input is refused; otherwise the stripped text, cut to its first
      `maxLength` characters when longer (a negative `maxLength` cuts from the end, as a Python
      slice does). */
  function ValidateText(text: string, maxLength: int): (r: Result<string, string>)
    ensures r.Err? <==> IsBlank(text)
    ensures r.Ok? ==> |r.value| <= |Strip(text)| && r.value == Strip(text)[..|r.value|]
    ensures r.Ok? && maxLength >= 0 ==>
      |r.value| == if |Strip(text)| <= maxLength then |Strip(text)| else maxLength
    ensures r.Ok? && |Strip(text)| <= maxLength ==> r.value == Strip(text)
    ensures r.Ok? && maxLength < 0 ==>
      |r.value| == if |Strip(text)| + maxLength < 0 then 0 else |Strip(text)| + maxLength
  {
    if IsBlank(text) then Err(EmptyInput)
    else
      var t := Strip(text);
      if |t| > maxLength then Ok(PySlice(t, 0, maxLength)) else Ok(t)
  }

  /** A validated text is never empty when some character may be kept. */
  lemma ValidatedNonEmpty(text: string, maxLength: int)
    requires !IsBlank(text) && maxLength >= 1
    ensures ValidateText(text, maxLength).Ok? && ValidateText(text, maxLength).value != ""
  {
    StripBlank(text);
  }

  /** `batch_process_texts`: every text validated in order; the first refusal is raised. */
  function BatchProcessTexts(texts: seq<string>, maxLength: int): (r: Result<seq<string>, string>)
    ensures r.Ok? <==> forall i :: 0 <= i < |texts| ==> !IsBlank(texts[i])
    ensures r.Ok? ==> |r.value| == |texts|
    ensures r.Ok? ==> forall i :: 0 <= i < |texts| ==> r.value[i] == ValidateText(texts[i], maxLength).value
    ensures r.Err? ==> r.error == EmptyInput
  {
    if texts == [] then Ok([])
    else
      match ValidateText(texts[0], maxLength)
      case Err(e) => Err(e)
      case Ok(v) =>
        match BatchProcessTexts(texts[1..], maxLength)
        case Err(e) => Err(e)
        case Ok(vs) =>
          assert forall i :: 1 <= i < |texts| ==> texts[1..][i - 1] == texts[i];
          Ok([v] + vs)
  }

  // ---------------------------------------------------------------------------------------
  // clean_output
  // ---------------------------------------------------------------------------------------

  /** `re.sub(r"([.!?])\s*(\w)", ...)`: sentence punctuation, any whitespace, then a word
      character become the punctuation, one space and the character upper-cased. Matches are
      taken left to right and never overlap. */
  function CapitalizeSentences(s: string): (r: string)
    ensures r == [] <==> s == []
    ensures s != [] ==> r[0] == s[0]
    ensures s != [] ==> (IsSpace(r[|r| - 1]) <==> IsSpace(s[|s| - 1]))
    decreases |s|
  {
    if s == [] then []
    else if SentenceEnd(s[0]) && 1 + SpaceRunLen(s[1..]) < |s|
         && IsWordChar(s[1 + SpaceRunLen(s[1..])]) then
      var k := SpaceRunLen(s[1..]);
      var rest := CapitalizeSentences(s[2 + k..]);
      assert rest != [] ==> s[2 + k..][|s| - 3 - k] == s[|s| - 1];
      [s[0], ' ', Upper(s[1 + k])] + rest
    else
      var rest := CapitalizeSentences(s[1..]);
      assert rest != [] ==> s[1..][|s| - 2] == s[|s| - 1];
      [s[0]] + rest
  }

  /** The substitution changes only spacing and letter case: what is visible stays. */
  lemma {:induction false} CapitalizeSentencesVisible(s: string)
    ensures Visible(CapitalizeSentences(s)) == Visible(s)
    decreases |s|
  {
    if s != [] {
      var k := SpaceRunLen(s[1..]);
      if SentenceEnd(s[0]) && 1 + k < |s| && IsWordChar(s[1 + k]) {
        CapitalizeSentencesVisible(s[2 + k..]);
        MatchUnfold(s, k);
        VisibleMatch(s, k, CapitalizeSentences(s[2 + k..]));
      } else {
        CapitalizeSentencesVisible(s[1..]);
        SkipUnfold(s, k);
        VisibleSkip(s, CapitalizeSentences(s[1..]));
      }
    }
  }

  /** The substitution when there is no match at the front. */
  lemma SkipUnfold(s: string, k: nat)
    requires |s| > 0 && k == SpaceRunLen(s[1..])
    requires !(SentenceEnd(s[0]) && 1 + k < |s| && IsWordChar(s[1 + k]))
    ensures CapitalizeSentences(s) == [s[0]] + CapitalizeSentences(s[1..])
  {
  }

  /** Upper-casing twice is upper-casing once. */
  lemma UpperIdempotent(c: char)
    ensures Upper(Upper(c)) == Upper(c)
  {
  }

  /** A match keeps what is visible: the whitespace run becomes one space and the word
      character is upper-cased. */
  lemma VisibleMatch(s: string, k: nat, rest: string)
    requires |s| > 0 && k == SpaceRunLen(s[1..])
    requires SentenceEnd(s[0]) && 1 + k < |s| && IsWordChar(s[1 + k])
    requires Visible(rest) == Visible(s[2 + k..])
    ensures Visible([s[0], ' ', Upper(s[1 + k])] + rest) == Visible(s)
  {
    SplitAround(s, k);
    VisibleMatchParts(s[0], s[1..][..k], s[1 + k], s[2 + k..], rest);
  }

  /** A text cut into its first character, the next `k` characters, one more character and
      the rest. */
  lemma SplitAround<T>(s: seq<T>, k: nat)
    requires 1 + k < |s|
    ensures s == [s[0]] + s[1..][..k] + [s[1 + k]] + s[2 + k..]
  {
    assert s[1..] == s[1..][..k] + s[1..][k..];
    assert s[1..][k..] == [s[1 + k]] + s[2 + k..];
  }

  lemma VisibleMatchParts(a: char, run: string, c: char, tail: string, rest: string)
    requires !IsSpace(a) && IsBlank(run) && !IsSpace(c)
    requires Visible(rest) == Visible(tail)
    ensures Visible([a, ' ', Upper(c)] + rest) == Visible([a] + run + [c] + tail)
  {
    var u := Upper(c);
    UpperIdempotent(c);
    VisibleBlank(run);
    VisibleChar(a);
    VisibleChar(' ');
    VisibleChar(c);
    VisibleChar(u);
    assert [a, ' ', u] + rest == [a] + [' '] + [u] + rest;
    VisibleFour([a], [' '], [u], rest);
    VisibleFour([a], run, [c], tail);
  }

  lemma VisibleChar(c: char)
    ensures Visible([c]) == if IsSpace(c) then [] else [Upper(c)]
  {
    assert [c][1..] == [];
  }

  lemma VisibleFour(a: string, b: string, c: string, d: string)
    ensures Visible(a + b + c + d) == Visible(a) + Visible(b) + Visible(c) + Visible(d)
  {
    VisibleAppend(a + b + c, d);
    VisibleAppend(a + b, c);
    VisibleAppend(a, b);
  }

  /** Copying the first character keeps what is visible. */
  lemma VisibleSkip(s: string, rest: string)
    requires |s| > 0 && Visible(rest) == Visible(s[1..])
    ensures Visible([s[0]] + rest) == Visible(s)
  {
    assert ([s[0]] + rest)[1..] == rest;
  }

  /** The first-letter fix of `clean_output`: a first character that is not upper case is
      replaced by its upper-case form. */
  function CapitalizeFirst(s: string): (r: string)
    ensures |r| == |s|
    ensures s != [] ==> r[0] == Upper(s[0]) && !IsLower(r[0]) && r[1..] == s[1..]
  {
    if s != [] && !IsUpper(s[0]) then [Upper(s[0])] + s[1..] else s
  }

  /** The punctuation fix of `clean_output`: a `.` is appended exactly when the text is non-empty
      and its last character is not sentence punctuation. */
  function EndSentence(s: string): (r: string)
    ensures |r| >= |s| && r[..|s|] == s
    ensures |r| == if s != [] && !SentenceEnd(s[|s| - 1]) then |s| + 1 else |s|
    ensures r != [] ==> SentenceEnd(r[|r| - 1])
  {
    if s != [] && !SentenceEnd(s[|s| - 1]) then s + "." else s
  }

  /** `clean_output`. */
  function CleanOutput(summary: string): string {
    EndSentence(CapitalizeFirst(CapitalizeSentences(Strip(CollapseSpaces(summary)))))
  }

  /** Sentence punctuation at `i` is not directly followed by a word character, and a word
      character after the punctuation and one space is not lower case. */
  ghost predicate CapitalizedAt(r: string, i: int)
    requires 0 <= i < |r|
  {
    SentenceEnd(r[i]) && i + 1 < |r| ==>
      && !IsWordChar(r[i + 1])
      && (r[i + 1] == ' ' && i + 2 < |r| && IsWordChar(r[i + 2]) ==> !IsLower(r[i + 2]))
  }

  ghost predicate SentencesCapitalized(r: string) {
    forall i :: 0 <= i < |r| ==> CapitalizedAt(r, i)
  }

  /** After the substitution every sentence starts with one space and an upper-case letter. */
  lemma {:induction false} CapitalizeSentencesCapitalized(s: string)
    ensures SentencesCapitalized(CapitalizeSentences(s))
    decreases |s|
  {
    if s != [] {
      var k := SpaceRunLen(s[1..]);
      if SentenceEnd(s[0]) && 1 + k < |s| && IsWordChar(s[1 + k]) {
        CapitalizeSentencesCapitalized(s[2 + k..]);
        CapitalizedMatch(s, k);
      } else {
        CapitalizeSentencesCapitalized(s[1..]);
        CapitalizedSkip(s, k);
      }
    }
  }

  /** A match at the front: punctuation, one space and an upper-case character, then the rest. */
  lemma CapitalizedMatch(s: string, k: nat)
    requires |s| > 0 && k == SpaceRunLen(s[1..])
    requires SentenceEnd(s[0]) && 1 + k < |s| && IsWordChar(s[1 + k])
    requires SentencesCapitalized(CapitalizeSentences(s[2 + k..]))
    ensures SentencesCapitalized(CapitalizeSentences(s))
  {
    MatchUnfold(s, k);
    CapitalizedAfterMatch(s[0], Upper(s[1 + k]), CapitalizeSentences(s[2 + k..]));
  }

  /** The substitution at a match at the front. */
  lemma MatchUnfold(s: string, k: nat)
    requires |s| > 0 && k == SpaceRunLen(s[1..])
    requires SentenceEnd(s[0]) && 1 + k < |s| && IsWordChar(s[1 + k])
    ensures CapitalizeSentences(s) == [s[0], ' ', Upper(s[1 + k])] + CapitalizeSentences(s[2 + k..])
  {
  }

  /** Punctuation, one space and an upper-case word character in front of a capitalised text. */
  lemma CapitalizedAfterMatch(a: char, u: char, rest: string)
    requires SentenceEnd(a) && IsWordChar(u) && !IsLower(u)
    requires SentencesCapitalized(rest)
    ensures SentencesCapitalized([a, ' ', u] + rest)
  {
    var p := [a, ' ', u];
    var r := p + rest;
    forall i | 0 <= i < |r| ensures CapitalizedAt(r, i) {
      if i >= 3 {
        CapitalizedShift(p, rest, i - 3);
      } else if i == 2 {
        assert !SentenceEnd(r[2]);
      } else if i == 1 {
        assert r[1] == ' ';
      } else {
        assert r[1] == ' ' && r[2] == u;
      }
    }
  }


  /** A position keeps its property when a prefix is put in front. */
  lemma CapitalizedShift(p: string, rest: string, i: nat)
    requires i < |rest| && CapitalizedAt(rest, i)
    ensures CapitalizedAt(p + rest, i + |p|)
  {
    var r := p + rest;
    assert r[i + |p|] == rest[i];
    if i + 1 < |rest| {
      assert r[i + |p| + 1] == rest[i + 1];
    }
    if i + 2 < |rest| {
      assert r[i + |p| + 2] == rest[i + 2];
    }
  }


  /** No match at the front: the first character, then the rest. */
  lemma CapitalizedSkip(s: string, k: nat)
    requires |s| > 0 && k == SpaceRunLen(s[1..])
    requires !(SentenceEnd(s[0]) && 1 + k < |s| && IsWordChar(s[1 + k]))
    requires SentencesCapitalized(CapitalizeSentences(s[1..]))
    ensures SentencesCapitalized(CapitalizeSentences(s))
  {
    var rest := CapitalizeSentences(s[1..]);
    var r := [s[0]] + rest;
    SkipUnfold(s, k);
    forall i | 0 <= i < |r| ensures CapitalizedAt(r, i) {
      if i >= 1 {
        CapitalizedShift([s[0]], rest, i - 1);
      } else if SentenceEnd(s[0]) && 1 < |r| {
        UnmatchedPunctuation(s, k);
      }
    }
  }



  /** Punctuation at the front that the substitution does not match keeps what follows it. */
  lemma UnmatchedPunctuation(s: string, k: nat)
    requires |s| > 1 && SentenceEnd(s[0])
    requires k == SpaceRunLen(s[1..])
    requires !(1 + k < |s| && IsWordChar(s[1 + k]))
    ensures CapitalizedAt([s[0]] + CapitalizeSentences(s[1..]), 0)
  {
    var rest := CapitalizeSentences(s[1..]);
    var r := [s[0]] + rest;
    assert r[1] == s[1];
    if k >= 1 && |s| > 2 {
      assert IsSpace(s[1]) by { assert s[1..][..k][0] == s[1]; }
      assert s[1..][1..] == s[2..];
      assert rest == [s[1]] + CapitalizeSentences(s[2..]);
      assert r[2] == s[2];
      if k >= 2 {
        assert IsSpace(s[2]) by { assert s[1..][..k][1] == s[2]; }
      } else {
        assert s[2] == s[1..][k];
      }
    } else if k == 0 {
      assert s[1] == s[1..][0];
    }
  }

  lemma SingleSpacedInfix(s: string, lo: int, hi: int)
    requires 0 <= lo <= hi <= |s| && SingleSpaced(s)
    ensures SingleSpaced(s[lo..hi])
  {
    var t := s[lo..hi];
    forall i | 0 <= i < |t| - 1 ensures !DoubleSpaceAt(t, i) {
      assert t[i] == s[lo + i] && t[i + 1] == s[lo + i + 1] && !DoubleSpaceAt(s, lo + i);
    }
  }

  /** The substitution keeps a single-spaced text single-spaced. */
  lemma {:induction false} CapitalizeSentencesSingleSpaced(s: string)
    requires SingleSpaced(s)
    ensures SingleSpaced(CapitalizeSentences(s))
    decreases |s|
  {
    if s != [] {
      var k := SpaceRunLen(s[1..]);
      if SentenceEnd(s[0]) && 1 + k < |s| && IsWordChar(s[1 + k]) {
        SingleSpacedInfix(s, 2 + k, |s|);
        assert s[2 + k..|s|] == s[2 + k..];
        CapitalizeSentencesSingleSpaced(s[2 + k..]);
        SingleSpacedMatch(s, k);
      } else {
        SingleSpacedInfix(s, 1, |s|);
        assert s[1..|s|] == s[1..];
        CapitalizeSentencesSingleSpaced(s[1..]);
        SingleSpacedSkip(s, k);
      }
    }
  }

  lemma SingleSpacedMatch(s: string, k: nat)
    requires |s| > 0 && k == SpaceRunLen(s[1..])
    requires SentenceEnd(s[0]) && 1 + k < |s| && IsWordChar(s[1 + k])
    requires SingleSpaced(CapitalizeSentences(s[2 + k..]))
    ensures SingleSpaced(CapitalizeSentences(s))
  {
    MatchUnfold(s, k);
    SingleSpacedAfterMatch(s[0], Upper(s[1 + k]), CapitalizeSentences(s[2 + k..]));
  }

  lemma SingleSpacedAfterMatch(a: char, u: char, rest: string)
    requires SentenceEnd(a) && IsWordChar(u)
    requires SingleSpaced(rest)
    ensures SingleSpaced([a, ' ', u] + rest)
  {
    SingleSpacedCons(u, rest);
    SingleSpacedCons(' ', [u] + rest);
    SingleSpacedCons(a, [' '] + ([u] + rest));
    assert [a, ' ', u] + rest == [a] + ([' '] + ([u] + rest));
  }


  lemma SingleSpacedSkip(s: string, k: nat)
    requires |s| > 0 && k == SpaceRunLen(s[1..])
    requires !(SentenceEnd(s[0]) && 1 + k < |s| && IsWordChar(s[1 + k]))
    requires SingleSpaced(s) && SingleSpaced(CapitalizeSentences(s[1..]))
    ensures SingleSpaced(CapitalizeSentences(s))
  {
    var rest := CapitalizeSentences(s[1..]);
    if |s| > 1 {
      assert rest[0] == s[1..][0] == s[1];
      assert !DoubleSpaceAt(s, 0);
    }
    SingleSpacedCons(s[0], rest);
  }


  /** Stripping keeps a single-spaced text single-spaced. */
  lemma StripSingleSpaced(c: string)
    requires SingleSpaced(c)
    ensures SingleSpaced(Strip(c))
  {
    StripInfix(c);
    var i :| InfixAt(Strip(c), c, i);
    SingleSpacedInfix(c, i, i + |Strip(c)|);
  }

  /** Collapsing whitespace leaves a blank text blank and a non-blank one non-blank. */
  lemma CollapseBlank(s: string)
    ensures IsBlank(CollapseSpaces(s)) <==> IsBlank(s)
  {
    CollapseSpacesWords(s);
    WordsBlank(CollapseSpaces(s));
    WordsBlank(s);
  }

  /** The whitespace step of `clean_output`: single-spaced and trimmed, empty exactly for
      blank input. */
  lemma CollapsedStripped(summary: string)
    ensures SingleSpaced(Strip(CollapseSpaces(summary)))
    ensures Trimmed(Strip(CollapseSpaces(summary)))
    ensures Strip(CollapseSpaces(summary)) == [] <==> IsBlank(summary)
  {
    CollapseSpacesSingleSpaced(summary);
    StripSingleSpaced(CollapseSpaces(summary));
    StripBlank(CollapseSpaces(summary));
    CollapseBlank(summary);
  }

  /** `clean_output` gives `""` for blank input, and only for blank input. */
  lemma CleanOutputEmpty(summary: string)
    ensures CleanOutput(summary) == [] <==> IsBlank(summary)
  {
    CollapsedStripped(summary);
  }

  /** What `clean_output` promises of a result: a non-empty one starts with a character that is
      not lower case and ends with sentence punctuation; it has no whitespace at either end and
      its only whitespace is single spaces; and every sentence inside it starts with one space
      and an upper-case letter. */
  lemma CleanOutputShape(summary: string)
    ensures CleanOutput(summary) != [] ==>
      !IsLower(CleanOutput(summary)[0]) && SentenceEnd(CleanOutput(summary)[|CleanOutput(summary)| - 1])
    ensures Trimmed(CleanOutput(summary)) && SingleSpaced(CleanOutput(summary))
    ensures SentencesCapitalized(CleanOutput(summary))
  {
    var a := Strip(CollapseSpaces(summary));
    CollapsedStripped(summary);
    assert CleanOutput(summary) == EndSentence(CapitalizeFirst(CapitalizeSentences(a)));
    if a != [] {
      CleanedShape(a);
    } else {
      assert CleanOutput(summary) == [];
    }
  }

  /** `clean_output` keeps the summary's text: ignoring spacing and letter case, the result
      reads exactly as the summary, followed by a `.` when the summary has text and its last
      visible character is not sentence punctuation. */
  lemma CleanOutputVisible(summary: string)
    ensures var v := Visible(summary);
      Visible(CleanOutput(summary))
        == if v != [] && !SentenceEnd(v[|v| - 1]) then v + "." else v
  {
    var a := Strip(CollapseSpaces(summary));
    VisibleCollapse(summary);
    VisibleStrip(CollapseSpaces(summary));
    var b := CapitalizeSentences(a);
    CapitalizeSentencesVisible(a);
    var c := CapitalizeFirst(b);
    VisibleCapitalizeFirst(b);
    assert Visible(c) == Visible(summary);
    assert CleanOutput(summary) == EndSentence(c);
    if c != [] {
      assert !IsSpace(b[0]) && !IsSpace(b[|b| - 1]);
      assert !IsSpace(c[|c| - 1]) by {
        if |c| > 1 { assert c[|c| - 1] == c[1..][|c| - 2] == b[|b| - 1]; }
      }
      VisibleEndSentence(c);
    }
  }

  /** Upper-casing the first character changes nothing visible. */
  lemma VisibleCapitalizeFirst(b: string)
    ensures Visible(CapitalizeFirst(b)) == Visible(b)
  {
    if b != [] {
      UpperIdempotent(b[0]);
      var c := CapitalizeFirst(b);
      assert c == [c[0]] + b[1..];
      assert b == [b[0]] + b[1..];
      VisibleAppend([c[0]], b[1..]);
      VisibleAppend([b[0]], b[1..]);
      VisibleChar(c[0]);
      VisibleChar(b[0]);
    }
  }

  /** The final `.` is the only visible change of `EndSentence`, and upper-casing never turns a
      character into sentence punctuation or back. */
  lemma VisibleEndSentence(c: string)
    requires c != [] && !IsSpace(c[|c| - 1])
    ensures var v := Visible(c);
      v != [] && Visible(EndSentence(c)) == if !SentenceEnd(v[|v| - 1]) then v + "." else v
  {
    var n := |c| - 1;
    assert c == c[..n] + [c[n]];
    VisibleAppend(c[..n], [c[n]]);
    VisibleChar(c[n]);
    assert SentenceEnd(Upper(c[n])) <==> SentenceEnd(c[n]);
    if !SentenceEnd(c[n]) {
      VisibleAppend(c, ".");
      VisibleChar('.');
    }
  }

  /** The steps after the whitespace clean-up, on a non-empty, trimmed, single-spaced text. */
  lemma CleanedShape(a: string)
    requires a != [] && Trimmed(a) && SingleSpaced(a)
    ensures var r := EndSentence(CapitalizeFirst(CapitalizeSentences(a)));
      && !IsLower(r[0]) && SentenceEnd(r[|r| - 1])
      && Trimmed(r) && SingleSpaced(r) && SentencesCapitalized(r)
  {
    var b := CapitalizeSentences(a);
    CapitalizeSentencesSingleSpaced(a);
    CapitalizeSentencesCapitalized(a);
    CapitalizeFirstPreserves(b);
    EndSentencePreserves(CapitalizeFirst(b));
  }

  /** Upper-casing the first character keeps the text single-spaced, trimmed and capitalised. */
  lemma CapitalizeFirstPreserves(b: string)
    requires b != [] && !IsSpace(b[0]) && !IsSpace(b[|b| - 1])
    requires SingleSpaced(b) && SentencesCapitalized(b)
    ensures var c := CapitalizeFirst(b);
      && !IsSpace(c[0]) && !IsSpace(c[|c| - 1]) && !IsLower(c[0])
      && SingleSpaced(c) && SentencesCapitalized(c)
  {
    var c := CapitalizeFirst(b);
    assert c == [c[0]] + b[1..];
    SingleSpacedInfix(b, 1, |b|);
    assert b[1..|b|] == b[1..];
    SingleSpacedCons(c[0], b[1..]);
    if |c| > 1 {
      assert c[|c| - 1] == b[|b| - 1];
    }
    forall i | 0 <= i < |c| ensures CapitalizedAt(c, i) {
      assert CapitalizedAt(b, i);
      if i == 0 && c[0] != b[0] {
        assert !SentenceEnd(c[0]);
      }
    }
  }

  /** Appending the final `.` keeps the text single-spaced, trimmed and capitalised. */
  lemma EndSentencePreserves(c: string)
    requires c != [] && !IsSpace(c[0]) && !IsSpace(c[|c| - 1])
    requires SingleSpaced(c) && SentencesCapitalized(c)
    ensures var r := EndSentence(c);
      Trimmed(r) && SingleSpaced(r) && SentencesCapitalized(r) && r[0] == c[0]
  {
    var r := EndSentence(c);
    if r != c {
      assert r == c + ".";
      forall i | 0 <= i < |r| - 1 ensures !DoubleSpaceAt(r, i) {
        if i + 1 < |c| { assert r[i] == c[i] && r[i + 1] == c[i + 1] && !DoubleSpaceAt(c, i); }
      }
      forall i | 0 <= i < |r| ensures CapitalizedAt(r, i) {
        if i < |c| { assert CapitalizedAt(c, i); }
      }
    }
  }

  /** `batch_clean_summaries`: every summary cleaned, in order. */
  function BatchCleanSummaries(summaries: seq<string>): (r: seq<string>)
    ensures |r| == |summaries|
    ensures forall i :: 0 <= i < |summaries| ==> r[i] == CleanOutput(summaries[i])
  {
    seq(|summaries|, i requires 0 <= i < |summaries| => CleanOutput(summaries[i]))
  }
}
