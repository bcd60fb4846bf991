/**
 * The handful of Python string operations the services rely on, written out over `seq<char>`:
 * `str.split()` (whitespace split), `str.split(c)`, `str.strip()`, `sep.join(xs)`,
 * `re.sub(r'\s+', ' ', s)`, Python slicing with negative bounds, and the ASCII part of the
 * character classes `\s`, `\w`, `isalpha`, `isupper`, `upper()` and `lower()`.
 */
module Strings {

  // ---------------------------------------------------------------------------------------
  // Character classes (ASCII part of Python's Unicode classes)
  // ---------------------------------------------------------------------------------------

  /** Whitespace for `str.split()`, `str.strip()`, `str.isspace()` and the regex class `\s`. */
  predicate IsSpace(c: char) {
    c == ' ' || c == '\t' || c == '\n' || c == '\r' || c == '\U{000B}' || c == '\U{000C}'
    || ('\U{001C}' <= c <= '\U{001F}')
  }

  predicate IsLower(c: char) { 'a' <= c <= 'z' }

  predicate IsUpper(c: char) { 'A' <= c <= 'Z' }

  /** `str.isalpha()` on one character. */
  predicate IsAlpha(c: char) { IsLower(c) || IsUpper(c) }

  predicate IsDigit(c: char) { '0' <= c <= '9' }

  /** The regex class `\w`. */
  predicate IsWordChar(c: char) { IsAlpha(c) || IsDigit(c) || c == '_' }

  /** Sentence punctuation, the class `[.!?]`. */
  predicate SentenceEnd(c: char) {
    c == '!' || c == '?' || c == '.'
  }

  function Upper(c: char): (u: char)
    ensures !IsLower(u)
    ensures IsWordChar(c) <==> IsWordChar(u)
    ensures IsSpace(c) <==> IsSpace(u)
    ensures !IsLower(c) ==> u == c
  {
    if IsLower(c) then (c as int - 32) as char else c
  }

  function Lower(c: char): (l: char)
    ensures !IsUpper(l)
    ensures !IsUpper(c) ==> l == c
  {
    if IsUpper(c) then (c as int + 32) as char else c
  }

  /** `s.lower()`. */
  function LowerStr(s: string): (r: string)
    ensures |r| == |s|
    ensures forall i :: 0 <= i < |s| ==> r[i] == Lower(s[i])
  {
    seq(|s|, i requires 0 <= i < |s| => Lower(s[i]))
  }

  /** `s.endswith(suffix)`. */
  predicate EndsWith(s: string, suffix: string) {
    |suffix| <= |s| && s[|s| - |suffix|..] == suffix
  }

  /** `sum(c.isalpha() for c in s)`. */
  function CountAlpha(s: string): (n: nat)
    ensures n <= |s|
  {
    if s == [] then 0 else (if IsAlpha(s[0]) then 1 else 0) + CountAlpha(s[1..])
  }

  // ---------------------------------------------------------------------------------------
  // Blank strings and strip()
  // ---------------------------------------------------------------------------------------

  /** `not s.strip()`: the string is empty or whitespace only. */
  predicate IsBlank(s: string) {
    forall i :: 0 <= i < |s| ==> IsSpace(s[i])
  }

  predicate NoSpace(s: string) {
    forall i :: 0 <= i < |s| ==> !IsSpace(s[i])
  }

  /** A word as `str.split()` returns it: non-empty and free of whitespace. */
  predicate IsWord(w: string) {
    w != [] && NoSpace(w)
  }

  predicate AllWords(ws: seq<string>) {
    forall k :: 0 <= k < |ws| ==> IsWord(ws[k])
  }

  /** No whitespace at either end. */
  predicate Trimmed(s: string) {
    s != [] ==> !IsSpace(s[0]) && !IsSpace(s[|s| - 1])
  }

  /** `r` occurs in `s` at offset `i`. */
  predicate InfixAt(r: string, s: string, i: int) {
    0 <= i <= |s| - |r| && r == s[i..i + |r|]
  }

  /** `s.lstrip()`. */
  function TrimStart(s: string): string
    decreases |s|
  {
    if s != [] && IsSpace(s[0]) then TrimStart(s[1..]) else s
  }

  /** `s.rstrip()`. */
  function TrimEnd(s: string): string
    decreases |s|
  {
    if s != [] && IsSpace(s[|s| - 1]) then TrimEnd(s[..|s| - 1]) else s
  }

  /** `lstrip()` drops a blank prefix and stops at the first non-whitespace character. */
  lemma {:induction false} TrimStartShape(s: string)
    ensures |TrimStart(s)| <= |s| && TrimStart(s) == s[|s| - |TrimStart(s)|..]
    ensures TrimStart(s) != [] ==> !IsSpace(TrimStart(s)[0])
    ensures IsBlank(s[..|s| - |TrimStart(s)|])
    decreases |s|
  {
    if s != [] && IsSpace(s[0]) {
      TrimStartShape(s[1..]);
      var r := TrimStart(s);
      var pre := s[..|s| - |r|];
      forall i | 0 <= i < |pre| ensures IsSpace(pre[i]) {
        if i > 0 { assert pre[i] == s[1..][..|s| - 1 - |r|][i - 1]; }
      }
    }
  }

  /** `rstrip()` drops a blank suffix and stops at the last non-whitespace character. */
  lemma {:induction false} TrimEndShape(s: string)
    ensures |TrimEnd(s)| <= |s| && TrimEnd(s) == s[..|TrimEnd(s)|]
    ensures TrimEnd(s) != [] ==> !IsSpace(TrimEnd(s)[|TrimEnd(s)| - 1])
    ensures IsBlank(s[|TrimEnd(s)|..])
    decreases |s|
  {
    if s != [] && IsSpace(s[|s| - 1]) {
      var p := s[..|s| - 1];
      TrimEndShape(p);
      var r := TrimEnd(s);
      forall i | |r| <= i < |s| ensures IsSpace(s[i]) {
        if i < |s| - 1 { assert s[i] == p[|r|..][i - |r|]; }
      }
      assert r == p[..|r|];
    }
  }

  /** `s.strip()`: whitespace removed from both ends. */
  function Strip(s: string): (r: string)
    ensures Trimmed(r)
  {
    TrimStartShape(s);
    TrimEndShape(TrimStart(s));
    TrimEnd(TrimStart(s))
  }

  /** What `strip()` keeps is a contiguous piece of the original. */
  lemma StripInfix(s: string)
    ensures exists i :: InfixAt(Strip(s), s, i)
  {
    var t := TrimStart(s);
    TrimStartShape(s);
    TrimEndShape(t);
    assert InfixAt(Strip(s), s, |s| - |t|);
  }

  /** `strip()` empties exactly the blank strings. */
  lemma StripBlank(s: string)
    ensures Strip(s) == [] <==> IsBlank(s)
  {
    var t := TrimStart(s);
    TrimStartShape(s);
    TrimEndShape(t);
    if Strip(s) == [] {
      assert t[0..] == t;
      forall i | 0 <= i < |s| ensures IsSpace(s[i]) {
        if i < |s| - |t| { assert s[i] == s[..|s| - |t|][i]; }
      }
    }
  }

  /** Trailing whitespace after a word is what `rstrip()` removes. */
  lemma {:induction false} TrimEndBlankSuffix(w: string, b: string)
    requires w != [] && !IsSpace(w[|w| - 1]) && IsBlank(b)
    ensures TrimEnd(w + b) == w
    decreases |b|
  {
    if b == [] {
      assert w + b == w;
    } else {
      var front := b[..|b| - 1];
      assert (w + b)[..|w + b| - 1] == w + front;
      TrimEndBlankSuffix(w, front);
    }
  }

  /** A string without whitespace at its ends is its own `strip()`. */
  lemma StripTrimmed(s: string)
    requires Trimmed(s)
    ensures Strip(s) == s
  {
  }

  /** Leading whitespace does not change what `strip()` returns. */
  lemma StripLeadingSpace(c: char, s: string)
    requires IsSpace(c)
    ensures Strip([c] + s) == Strip(s)
  {
    assert ([c] + s)[1..] == s;
  }

  // ---------------------------------------------------------------------------------------
  // str.split() and ' '.join()
  // ---------------------------------------------------------------------------------------

  /** Length of the leading run of non-whitespace characters. */
  function WordLen(s: string): (n: nat)
    ensures n <= |s|
    ensures NoSpace(s[..n])
    ensures n < |s| ==> IsSpace(s[n])
  {
    if s == [] || IsSpace(s[0]) then 0
    else
      var m := WordLen(s[1..]);
      assert s[..1 + m] == [s[0]] + s[1..][..m];
      1 + m
  }

  /** `s.split()`: the maximal runs of non-whitespace characters, left to right. */
  function Words(s: string): (ws: seq<string>)
    ensures AllWords(ws)
    decreases |s|
  {
    if s == [] then []
    else if IsSpace(s[0]) then Words(s[1..])
    else
      var n := WordLen(s);
      [s[..n]] + Words(s[n..])
  }

  /** `sep.join(xs)`. */
  function Join(sep: string, xs: seq<string>): string {
    if |xs| == 0 then ""
    else if |xs| == 1 then xs[0]
    else xs[0] + sep + Join(sep, xs[1..])
  }

  lemma JoinAppend(sep: string, xs: seq<string>, ys: seq<string>)
    requires xs != [] && ys != []
    ensures Join(sep, xs + ys) == Join(sep, xs) + sep + Join(sep, ys)
  {
    if |xs| == 1 {
      assert (xs + ys)[1..] == ys;
    } else {
      assert (xs + ys)[1..] == xs[1..] + ys;
      JoinAppend(sep, xs[1..], ys);
    }
  }

  lemma WordLenOfWord(w: string, t: string)
    requires IsWord(w)
    requires t == [] || IsSpace(t[0])
    ensures WordLen(w + t) == |w|
    decreases |w|
  {
    if |w| > 1 {
      assert (w + t)[1..] == w[1..] + t;
      WordLenOfWord(w[1..], t);
    } else {
      assert (w + t)[1..] == t;
    }
  }

  /** A word followed by whitespace (or by nothing) is split off as the first word. */
  lemma WordsOfWordThen(w: string, t: string)
    requires IsWord(w)
    requires t == [] || IsSpace(t[0])
    ensures Words(w + t) == [w] + Words(t)
  {
    WordLenOfWord(w, t);
    assert (w + t)[..|w|] == w;
    assert (w + t)[|w|..] == t;
  }

  /** Splitting a space-joined list of words gives the list back. */
  lemma {:induction false} WordsOfJoin(ws: seq<string>)
    requires AllWords(ws)
    ensures Words(Join(" ", ws)) == ws
  {
    if |ws| == 0 {
    } else if |ws| == 1 {
      WordsOfWordThen(ws[0], "");
      assert ws[0] + "" == ws[0];
    } else {
      var rest := Join(" ", ws[1..]);
      assert Join(" ", ws) == ws[0] + (" " + rest);
      WordsOfWordThen(ws[0], " " + rest);
      assert (" " + rest)[1..] == rest;
      WordsOfJoin(ws[1..]);
    }
  }

  /** Joining two strings with a space adds their word lists. */
  lemma {:induction false} WordsOfSpaceConcat(a: string, b: string)
    ensures Words(a + " " + b) == Words(a) + Words(b)
    decreases |a|
  {
    var s := a + " " + b;
    if a == [] {
      assert s == " " + b;
      assert s[1..] == b;
    } else if IsSpace(a[0]) {
      assert s[1..] == a[1..] + " " + b;
      WordsOfSpaceConcat(a[1..], b);
    } else {
      var n := WordLen(a);
      WordsOfSpaceConcat(a[n..], b);
      WordsOfSpaceConcatWord(a, b, n);
    }
  }

  /** The step of `WordsOfSpaceConcat` when `a` starts with a word. */
  lemma WordsOfSpaceConcatWord(a: string, b: string, n: nat)
    requires a != [] && !IsSpace(a[0]) && n == WordLen(a)
    requires Words(a[n..] + " " + b) == Words(a[n..]) + Words(b)
    ensures Words(a + " " + b) == Words(a) + Words(b)
  {
    SplitConcat(a, n, " ", b);
    WordsOfWordThen(a[..n], a[n..] + " " + b);
    WordsOfWordThen(a[..n], a[n..]);
  }

  /** Cutting `a` at `n` and regrouping a concatenation around the cut. */
  lemma SplitConcat<T>(a: seq<T>, n: nat, x: seq<T>, y: seq<T>)
    requires n <= |a|
    ensures a == a[..n] + a[n..]
    ensures a + x + y == a[..n] + (a[n..] + x + y)
  {
  }




  /** Leading whitespace contributes no word. */
  lemma WordsLeadingSpace(c: char, s: string)
    requires IsSpace(c)
    ensures Words([c] + s) == Words(s)
  {
    assert ([c] + s)[1..] == s;
  }

  /** Blank strings have no words, and only they. */
  lemma {:induction false} WordsBlank(s: string)
    ensures Words(s) == [] <==> IsBlank(s)
    decreases |s|
  {
    if s != [] {
      if IsSpace(s[0]) {
        WordsBlank(s[1..]);
        if IsBlank(s[1..]) {
          forall i | 0 <= i < |s| ensures IsSpace(s[i]) { if i > 0 { assert s[i] == s[1..][i - 1]; } }
        }
      }
    }
  }

  /** Total number of words in a list of strings. */
  function WordTotal(ps: seq<string>): (n: nat)
  {
    if ps == [] then 0 else WordTotal(ps[..|ps| - 1]) + |Words(ps[|ps| - 1])|
  }

  lemma WordTotalSnoc(ps: seq<string>, p: string)
    ensures WordTotal(ps + [p]) == WordTotal(ps) + |Words(p)|
  {
    assert (ps + [p])[..|ps|] == ps;
  }

  /** The words of a space-joined list are the words of its members. */
  lemma {:induction false} WordsOfJoinCount(ps: seq<string>)
    ensures |Words(Join(" ", ps))| == WordTotal(ps)
    decreases |ps|
  {
    if |ps| == 1 {
      assert ps[..0] == [];
    } else if |ps| > 1 {
      var n := |ps| - 1;
      var front := ps[..n];
      assert front + [ps[n]] == ps;
      JoinAppend(" ", front, [ps[n]]);
      WordsOfSpaceConcat(Join(" ", front), ps[n]);
      WordsOfJoinCount(front);
    }
  }

  // ---------------------------------------------------------------------------------------
  // re.sub(r'\s+', ' ', s)
  // ---------------------------------------------------------------------------------------

  /** Length of the leading whitespace run. */
  function SpaceRunLen(s: string): (n: nat)
    ensures n <= |s|
    ensures IsBlank(s[..n])
    ensures n < |s| ==> !IsSpace(s[n])
  {
    if s == [] || !IsSpace(s[0]) then 0
    else
      var m := SpaceRunLen(s[1..]);
      assert s[..1 + m] == [s[0]] + s[1..][..m];
      1 + m
  }

  /** Every run of whitespace replaced by one `' '`. */
  function CollapseSpaces(s: string): (r: string)
    ensures r == [] <==> s == []
    ensures s != [] ==> (IsSpace(r[0]) <==> IsSpace(s[0]))
    ensures s != [] ==> (IsSpace(r[|r| - 1]) <==> IsSpace(s[|s| - 1]))
    decreases |s|
  {
    if s == [] then []
    else if IsSpace(s[0]) then
      var n := SpaceRunLen(s);
      assert n == |s| ==> IsSpace(s[|s| - 1]) by { if n == |s| { assert s[..n][|s| - 1] == s[|s| - 1]; } }
      assert n < |s| ==> s[n..][|s| - n - 1] == s[|s| - 1];
      [' '] + CollapseSpaces(s[n..])
    else
      assert |s| > 1 ==> s[1..][|s| - 2] == s[|s| - 1];
      [s[0]] + CollapseSpaces(s[1..])
  }

  /** A whitespace character in front is absorbed into the run that follows it, if any. */
  lemma CollapseSpaceCons(c: char, w: string)
    requires IsSpace(c)
    ensures w != [] && IsSpace(w[0]) ==> CollapseSpaces([c] + w) == CollapseSpaces(w)
    ensures !(w != [] && IsSpace(w[0])) ==> CollapseSpaces([c] + w) == [' '] + CollapseSpaces(w)
  {
    var m := SpaceRunLen(w);
    var rest := w[m..];
    SpaceRunCons(c, w);
    DropAfterCons(c, w, m);
    CollapseRunUnfold([c] + w, 1 + m);
    assert CollapseSpaces([c] + w) == [' '] + CollapseSpaces(rest);
    if w != [] && IsSpace(w[0]) {
      CollapseRunUnfold(w, m);
    } else {
      NoRun(w);
    }
  }

  lemma NoRun(w: string)
    requires !(w != [] && IsSpace(w[0]))
    ensures w[SpaceRunLen(w)..] == w
  {
  }

  lemma DropAfterCons<T>(x: T, w: seq<T>, m: nat)
    requires m <= |w|
    ensures ([x] + w)[1 + m..] == w[m..]
  {
  }

  lemma SpaceRunCons(c: char, w: string)
    requires IsSpace(c)
    ensures SpaceRunLen([c] + w) == 1 + SpaceRunLen(w)
  {
    assert ([c] + w)[1..] == w;
  }

  /** The collapse of a text that starts with a whitespace run of length `n`. */
  lemma CollapseRunUnfold(y: string, n: nat)
    requires y != [] && IsSpace(y[0]) && n == SpaceRunLen(y)
    ensures CollapseSpaces(y) == [' '] + CollapseSpaces(y[n..])
  {
  }

  /** A non-empty whitespace run in front collapses like a single space. */
  lemma {:induction false} CollapseBlankPrefix(b: string, w: string)
    requires b != [] && IsBlank(b)
    ensures CollapseSpaces(b + w) == CollapseSpaces([' '] + w)
    decreases |b|
  {
    if |b| == 1 {
      assert b + w == [b[0]] + w;
      CollapseSpaceCons(b[0], w);
      CollapseSpaceCons(' ', w);
    } else {
      var t := b[1..];
      assert b + w == [b[0]] + (t + w);
      assert IsSpace(b[1]);
      assert (t + w)[0] == b[1];
      CollapseSpaceCons(b[0], t + w);
      CollapseBlankPrefix(t, w);
    }
  }

  /** Trailing whitespace contributes no word. */
  lemma {:induction false} WordsBlankSuffix(a: string, b: string)
    requires IsBlank(b)
    ensures Words(a + b) == Words(a)
    decreases |a|
  {
    if a == [] {
      assert a + b == b;
      WordsBlank(b);
    } else if IsSpace(a[0]) {
      assert (a + b)[1..] == a[1..] + b;
      WordsBlankSuffix(a[1..], b);
    } else {
      var n := WordLen(a);
      var w := a[..n];
      assert a == w + a[n..];
      assert a + b == w + (a[n..] + b);
      assert n < |a| ==> (a[n..] + b)[0] == a[n];
      WordsOfWordThen(w, a[n..] + b);
      WordsOfWordThen(w, a[n..]);
      WordsBlankSuffix(a[n..], b);
    }
  }

  /** `strip()` keeps the words. */
  lemma WordsStrip(s: string)
    ensures Words(Strip(s)) == Words(s)
  {
    WordsTrimStart(s);
    WordsTrimEnd(TrimStart(s));
  }

  lemma WordsTrimStart(s: string)
    ensures Words(TrimStart(s)) == Words(s)
  {
    var t := TrimStart(s);
    TrimStartShape(s);
    WordsSkipBlank(s, |s| - |t|);
  }

  lemma WordsTrimEnd(t: string)
    ensures Words(TrimEnd(t)) == Words(t)
  {
    var e := TrimEnd(t);
    TrimEndShape(t);
    var b := t[|e|..];
    assert t == e + b;
    WordsBlankSuffix(e, b);
  }

  /** What a text reads as when spacing and letter case are ignored: its characters other than
      whitespace, in order, upper-cased. */
  function Visible(s: string): string {
    if s == [] then [] else (if IsSpace(s[0]) then [] else [Upper(s[0])]) + Visible(s[1..])
  }

  lemma {:induction false} VisibleAppend(a: string, b: string)
    ensures Visible(a + b) == Visible(a) + Visible(b)
    decreases |a|
  {
    if a != [] {
      assert (a + b)[0] == a[0] && (a + b)[1..] == a[1..] + b;
      VisibleAppend(a[1..], b);
    } else {
      assert a + b == b;
    }
  }

  lemma {:induction false} VisibleBlank(b: string)
    requires IsBlank(b)
    ensures Visible(b) == []
    decreases |b|
  {
    if b != [] {
      VisibleBlank(b[1..]);
    }
  }

  /** Collapsing whitespace runs changes nothing visible. */
  lemma {:induction false} VisibleCollapse(s: string)
    ensures Visible(CollapseSpaces(s)) == Visible(s)
    decreases |s|
  {
    if s != [] {
      if IsSpace(s[0]) {
        var n := SpaceRunLen(s);
        VisibleCollapse(s[n..]);
        var c := CollapseSpaces(s[n..]);
        assert CollapseSpaces(s) == [' '] + c;
        assert ([' '] + c)[1..] == c;
        assert s == s[..n] + s[n..];
        VisibleAppend(s[..n], s[n..]);
        VisibleBlank(s[..n]);
      } else {
        VisibleCollapse(s[1..]);
        var c := CollapseSpaces(s[1..]);
        assert CollapseSpaces(s) == [s[0]] + c;
        assert ([s[0]] + c)[1..] == c;
      }
    }
  }

  /** `strip()` changes nothing visible. */
  lemma VisibleStrip(s: string)
    ensures Visible(Strip(s)) == Visible(s)
  {
    var t := TrimStart(s);
    TrimStartShape(s);
    var k := |s| - |t|;
    assert s == s[..k] + t;
    VisibleAppend(s[..k], t);
    VisibleBlank(s[..k]);
    var e := TrimEnd(t);
    TrimEndShape(t);
    assert t == e + t[|e|..];
    VisibleAppend(e, t[|e|..]);
    VisibleBlank(t[|e|..]);
  }

  /** A string whose only whitespace character is `' '`, never twice in a row. */
  predicate SingleSpaced(s: string) {
    && (forall i :: 0 <= i < |s| && IsSpace(s[i]) ==> s[i] == ' ')
    && (forall i :: 0 <= i < |s| - 1 ==> !DoubleSpaceAt(s, i))
  }

  /** Whitespace at `i` and at `i + 1`. */
  predicate DoubleSpaceAt(s: string, i: int)
    requires 0 <= i < |s| - 1
  {
    IsSpace(s[i]) && IsSpace(s[i + 1])
  }

  lemma SingleSpacedCons(c: char, t: string)
    requires SingleSpaced(t)
    requires IsSpace(c) ==> c == ' ' && (t == [] || !IsSpace(t[0]))
    ensures SingleSpaced([c] + t)
  {
    var r := [c] + t;
    forall i | 0 <= i < |r| - 1 ensures !DoubleSpaceAt(r, i) {
      if i > 0 { assert r[i] == t[i - 1] && r[i + 1] == t[i] && !DoubleSpaceAt(t, i - 1); }
    }
    forall i | 0 <= i < |r| && IsSpace(r[i]) ensures r[i] == ' ' {
      if i > 0 { assert r[i] == t[i - 1]; }
    }
  }

  lemma {:induction false} CollapseSpacesSingleSpaced(s: string)
    ensures SingleSpaced(CollapseSpaces(s))
    decreases |s|
  {
    if s != [] {
      if IsSpace(s[0]) {
        var n := SpaceRunLen(s);
        CollapseSpacesSingleSpaced(s[n..]);
        SingleSpacedCons(' ', CollapseSpaces(s[n..]));
      } else {
        CollapseSpacesSingleSpaced(s[1..]);
        SingleSpacedCons(s[0], CollapseSpaces(s[1..]));
      }
    }
  }

  /** Collapsing whitespace runs keeps the words. */
  lemma {:induction false} CollapseSpacesWords(s: string)
    ensures Words(CollapseSpaces(s)) == Words(s)
    decreases |s|
  {
    if s != [] {
      if IsSpace(s[0]) {
        var n := SpaceRunLen(s);
        CollapseSpacesWords(s[n..]);
        WordsLeadingSpace(' ', CollapseSpaces(s[n..]));
        WordsSkipBlank(s, n);
      } else {
        var n := WordLen(s);
        assert s[..n] + s[n..] == s;
        CollapseKeepsWordPrefix(s, n);
        CollapseSpacesWords(s[n..]);
        if n < |s| {
          WordsOfWordThen(s[..n], CollapseSpaces(s[n..]));
        } else {
          assert s[n..] == [];
          WordsOfWordThen(s[..n], []);
          assert s[..n] + [] == s[..n];
        }
      }
    }
  }

  lemma {:induction false} WordsSkipBlank(s: string, n: nat)
    requires n <= |s| && IsBlank(s[..n])
    ensures Words(s) == Words(s[n..])
    decreases n
  {
    if n > 0 {
      var p := s[..n];
      assert IsSpace(s[0]) by { assert p[0] == s[0]; }
      var t := s[1..];
      var q := t[..n - 1];
      forall i | 0 <= i < n - 1 ensures IsSpace(q[i]) { assert p[i + 1] == q[i]; }
      WordsSkipBlank(t, n - 1);
      assert t[n - 1..] == s[n..];
    }
  }

  /** Collapsing a string that starts with a word of length n keeps that word in front. */
  lemma {:induction false} CollapseKeepsWordPrefix(s: string, n: nat)
    requires n <= |s| && NoSpace(s[..n])
    ensures CollapseSpaces(s) == s[..n] + CollapseSpaces(s[n..])
    decreases n
  {
    if n > 0 {
      NoSpaceTail(s, n);
      CollapseKeepsWordPrefix(s[1..], n - 1);
      assert s[1..][n - 1..] == s[n..];
      ConsPrefix(s, n, CollapseSpaces(s[n..]));
    } else {
      assert s[..0] + s[0..] == s;
    }
  }

  /** A word prefix starts with a non-whitespace character, and stays one without it. */
  lemma NoSpaceTail(s: string, n: nat)
    requires 0 < n <= |s| && NoSpace(s[..n])
    ensures !IsSpace(s[0]) && NoSpace(s[1..][..n - 1])
  {
    assert s[..n][0] == s[0];
    var q := s[1..][..n - 1];
    forall i | 0 <= i < |q| ensures !IsSpace(q[i]) {
      assert s[..n][i + 1] == q[i];
    }
  }

  lemma ConsPrefix<T>(s: seq<T>, n: nat, x: seq<T>)
    requires 0 < n <= |s|
    ensures [s[0]] + (s[1..][..n - 1] + x) == s[..n] + x
  {
    assert s[..n] == [s[0]] + s[1..][..n - 1];
  }



  // ---------------------------------------------------------------------------------------
  // str.split(c) for a one-character separator
  // ---------------------------------------------------------------------------------------

  /** `s.split(c)`: the pieces between the occurrences of `c`; at least one piece. */
  function SplitOn(s: string, c: char): (ps: seq<string>)
    ensures |ps| >= 1
    ensures forall k :: 0 <= k < |ps| ==> c !in ps[k]
    decreases |s|
  {
    if s == [] then [""]
    else
      var rest := SplitOn(s[1..], c);
      if s[0] == c then [""] + rest else [[s[0]] + rest[0]] + rest[1..]
  }

  /** Joining the pieces with the separator restores the string. */
  lemma {:induction false} JoinSplitOn(s: string, c: char)
    ensures Join([c], SplitOn(s, c)) == s
    decreases |s|
  {
    if s != [] {
      var rest := SplitOn(s[1..], c);
      JoinSplitOn(s[1..], c);
      if s[0] == c {
        assert SplitOn(s, c) == [""] + rest;
        JoinCons([c], "", rest);
      } else {
        var ps := [[s[0]] + rest[0]] + rest[1..];
        if |rest| == 1 {
        } else {
          JoinCons([c], rest[0], rest[1..]);
          assert [rest[0]] + rest[1..] == rest;
          JoinCons([c], [s[0]] + rest[0], rest[1..]);
        }
      }
    }
  }

  /** `s.replace(c, d)` for one-character `c` and `d`. */
  function ReplaceChar(s: string, c: char, d: char): (r: string)
    ensures |r| == |s|
  {
    seq(|s|, i requires 0 <= i < |s| => if s[i] == c then d else s[i])
  }

  /** Joining the pieces of `s.split(c)` with `d` instead replaces every `c` by `d`. */
  lemma {:induction false} JoinSplitOnWith(s: string, c: char, d: char)
    ensures Join([d], SplitOn(s, c)) == ReplaceChar(s, c, d)
    decreases |s|
  {
    if s != [] {
      var rest := SplitOn(s[1..], c);
      JoinSplitOnWith(s[1..], c, d);
      assert ReplaceChar(s, c, d) == [if s[0] == c then d else s[0]] + ReplaceChar(s[1..], c, d);
      if s[0] == c {
        JoinCons([d], "", rest);
      } else if |rest| > 1 {
        JoinCons([d], rest[0], rest[1..]);
        assert [rest[0]] + rest[1..] == rest;
        JoinCons([d], [s[0]] + rest[0], rest[1..]);
      }
    }
  }

  lemma JoinCons(sep: string, x: string, xs: seq<string>)
    requires xs != []
    ensures Join(sep, [x] + xs) == x + sep + Join(sep, xs)
  {
    assert ([x] + xs)[1..] == xs;
  }

  /** Splitting a `c`-joined list whose pieces contain no `c` gives the list back. */
  lemma {:induction false} SplitOnJoin(xs: seq<string>, c: char)
    requires xs != []
    requires forall k :: 0 <= k < |xs| ==> c !in xs[k]
    ensures SplitOn(Join([c], xs), c) == xs
    decreases |xs|, |xs[0]|
  {
    if |xs| == 1 {
      SplitOnFree(xs[0], c);
    } else if xs[0] == [] {
      var rest := Join([c], xs[1..]);
      assert Join([c], xs) == [c] + rest;
      assert ([c] + rest)[1..] == rest;
      SplitOnJoin(xs[1..], c);
      assert [""] + xs[1..] == xs;
    } else {
      var ys := [xs[0][1..]] + xs[1..];
      JoinCons([c], xs[0], xs[1..]);
      JoinCons([c], xs[0][1..], xs[1..]);
      var j := Join([c], xs);
      assert j == [xs[0][0]] + Join([c], ys);
      assert j[1..] == Join([c], ys);
      assert xs[0][0] != c by { assert xs[0][0] in xs[0]; }
      forall k | 0 <= k < |ys| ensures c !in ys[k] {
        if k == 0 { assert xs[0] == [xs[0][0]] + xs[0][1..]; } else { assert ys[k] == xs[k]; }
      }
      SplitOnJoin(ys, c);
      assert [xs[0][0]] + xs[0][1..] == xs[0];
      assert ys[1..] == xs[1..];
      assert [xs[0]] + xs[1..] == xs;
    }
  }

  lemma {:induction false} SplitOnFree(s: string, c: char)
    requires c !in s
    ensures SplitOn(s, c) == [s]
    decreases |s|
  {
    if s != [] {
      assert s == [s[0]] + s[1..];
      SplitOnFree(s[1..], c);
      assert [s[0]] + s[1..] == s;
    }
  }

  // ---------------------------------------------------------------------------------------
  // Python slicing
  // ---------------------------------------------------------------------------------------

  /** A Python index bound clipped into `[0, n]` (negative bounds count from the end). */
  function PyIndex(k: int, n: nat): (r: nat)
    ensures r <= n
    ensures 0 <= k <= n ==> r == k
  {
    if k < 0 then (if n + k < 0 then 0 else n + k) else if k > n then n else k
  }

  /** `s[lo:hi]` with Python's semantics. */
  function PySlice<T>(s: seq<T>, lo: int, hi: int): (r: seq<T>)
    ensures 0 <= lo <= |s| && lo <= hi ==> r == s[lo..if hi <= |s| then hi else |s|]
    ensures |r| <= |s|
  {
    var a := PyIndex(lo, |s|);
    var b := PyIndex(hi, |s|);
    if a < b then s[a..b] else []
  }
}
