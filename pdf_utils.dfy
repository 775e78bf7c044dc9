/** Cleaning of extracted PDF page text and joining of pages into one corpus
    (eduweave/pdf_utils.py). */
module PdfUtils {
  import opened Common

  // ---------------------------------------------------------------------
  // Character-level shape of cleaned text
  // ---------------------------------------------------------------------

  /** A character matched by the regex class `[ \t]`. */
  predicate IsBlank(c: char) {
    c == ' ' || c == '\t'
  }

  predicate NoDoubleSpace(s: string) {
    forall i :: 0 <= i < |s| - 1 ==> !(s[i] == ' ' && s[i + 1] == ' ')
  }

  predicate NoTripleNewline(s: string) {
    forall i :: 0 <= i < |s| - 2 ==> !(s[i] == '\n' && s[i + 1] == '\n' && s[i + 2] == '\n')
  }

  /** `s` holds no occurrence of `x`. */
  predicate Lacks(s: string, x: char) {
    forall i :: 0 <= i < |s| ==> s[i] != x
  }

  /** The shape clean_text promises: no NUL, no carriage return, no tab, no
      two spaces in a row, no three line breaks in a row, and no whitespace
      at either end. */
  predicate IsClean(s: string) {
    && Lacks(s, '\0') && Lacks(s, '\r') && Lacks(s, '\t')
    && NoDoubleSpace(s) && NoTripleNewline(s)
    && (s == [] || (!IsSpace(s[0]) && !IsSpace(s[|s| - 1])))
  }

  // ---------------------------------------------------------------------
  // The four rewrites of clean_text
  // ---------------------------------------------------------------------

  /** text.replace("\x00", " ") */
  function ReplaceNul(s: string): (r: string)
    ensures |r| == |s| && Lacks(r, '\0')
    ensures forall i :: 0 <= i < |s| && s[i] != '\0' ==> r[i] == s[i]
    ensures forall i :: 0 <= i < |s| && s[i] == '\0' ==> r[i] == ' '
  {
    seq(|s|, i requires 0 <= i < |s| => if s[i] == '\0' then ' ' else s[i])
  }

  /** re.sub(r"\r\n?", "\n", text): a CR LF pair or a lone CR becomes LF. */
  function NormalizeNewlines(s: string): (r: string)
    ensures |r| <= |s|
  {
    if s == [] then []
    else if s[0] == '\r' then
      if |s| > 1 && s[1] == '\n' then "\n" + NormalizeNewlines(s[2..])
      else "\n" + NormalizeNewlines(s[1..])
    else [s[0]] + NormalizeNewlines(s[1..])
  }

  /** After it no CR is left, no NUL is introduced, and the non-whitespace
      characters are those of the input. */
  lemma {:induction false} NormalizeNewlinesFacts(s: string)
    ensures Lacks(NormalizeNewlines(s), '\r')
    ensures Lacks(s, '\0') ==> Lacks(NormalizeNewlines(s), '\0')
    ensures NonSpace(NormalizeNewlines(s)) == NonSpace(s)
  {
    if s != [] {
      var r := NormalizeNewlines(s);
      var t := if s[0] == '\r' && |s| > 1 && s[1] == '\n' then s[2..] else s[1..];
      var rest := NormalizeNewlines(t);
      NormalizeNewlinesFacts(t);
      assert r == [r[0]] + rest;
      assert r[1..] == rest;
      assert r[0] == if s[0] == '\r' then '\n' else s[0];
      assert forall i :: 0 < i < |r| ==> r[i] == rest[i - 1];
      assert forall i :: 0 <= i < |t| ==> t[i] == s[i + |s| - |t|];
      if |t| < |s| - 1 {
        assert NonSpace(s) == NonSpace(t) by {
          assert s[1..][1..] == t;
        }
      }
    }
  }

  lemma {:induction false} NormalizeNewlinesUnchanged(s: string)
    requires Lacks(s, '\r')
    ensures NormalizeNewlines(s) == s
  {
    if s != [] {
      var t := s[1..];
      assert forall i :: 0 <= i < |t| ==> t[i] == s[i + 1];
      NormalizeNewlinesUnchanged(t);
      assert s == [s[0]] + t;
    }
  }

  /** How many characters the first step of NormalizeNewlines consumes. */
  function HeadLength(s: string): nat
    requires s != []
  {
    if s[0] == '\r' && |s| > 1 && s[1] == '\n' then 2 else 1
  }

  /** One step of NormalizeNewlines: a line break for a leading CR (with its
      LF, if any), the character itself otherwise. */
  lemma {:induction false} NormalizeNewlinesHead(s: string)
    requires s != []
    ensures HeadLength(s) <= |s|
    ensures NormalizeNewlines(s)
         == [if s[0] == '\r' then '\n' else s[0]] + NormalizeNewlines(s[HeadLength(s)..])
  {
  }

  /** The rewrite works piece by piece when the first piece does not end in
      CR: no CR LF pair straddles the seam. */
  lemma {:induction false} NormalizeNewlinesAppend(a: string, t: string)
    requires a == [] || a[|a| - 1] != '\r'
    ensures NormalizeNewlines(a + t) == NormalizeNewlines(a) + NormalizeNewlines(t)
    decreases |a|
  {
    if a == [] {
      assert a + t == t;
    } else {
      var s := a + t;
      var k := HeadLength(a);
      var a' := a[k..];
      var c := if a[0] == '\r' then '\n' else a[0];
      assert NormalizeNewlines(s) == [c] + NormalizeNewlines(a' + t) by {
        assert s[0] == a[0];
        if a[0] == '\r' {
          assert |a| > 1 && s[1] == a[1];
        }
        assert HeadLength(s) == k;
        assert s[k..] == a' + t;
        NormalizeNewlinesHead(s);
      }
      assert NormalizeNewlines(a) == [c] + NormalizeNewlines(a') by {
        NormalizeNewlinesHead(a);
      }
      if a' != [] {
        assert a'[|a'| - 1] == a[|a| - 1];
      }
      NormalizeNewlinesAppend(a', t);
      AppendAssoc([c], NormalizeNewlines(a'), NormalizeNewlines(t));
    }
  }

  /** A CR LF pair becomes one line break between the rewritten pieces. */
  lemma {:induction false} NormalizeNewlinesCrLf(a: string, b: string)
    requires a == [] || a[|a| - 1] != '\r'
    ensures NormalizeNewlines(a + "\r\n" + b) == NormalizeNewlines(a) + "\n" + NormalizeNewlines(b)
  {
    var s := "\r\n" + b;
    assert s[0] == '\r' && s[1] == '\n' && s[2..] == b;
    AppendAssoc(a, "\r\n", b);
    NormalizeNewlinesAppend(a, s);
  }

  /** A CR not followed by LF becomes one line break between the rewritten
      pieces. */
  lemma {:induction false} NormalizeNewlinesLoneCr(a: string, b: string)
    requires a == [] || a[|a| - 1] != '\r'
    requires b == [] || b[0] != '\n'
    ensures NormalizeNewlines(a + "\r" + b) == NormalizeNewlines(a) + "\n" + NormalizeNewlines(b)
  {
    var s := "\r" + b;
    assert s[0] == '\r' && s[1..] == b;
    AppendAssoc(a, "\r", b);
    NormalizeNewlinesAppend(a, s);
  }

  /** re.sub(r"[ \t]+", " ", text): every run of spaces and tabs becomes one
      space. A blank followed by another blank is dropped; the last blank of
      a run is written as ' '. */
  function CollapseBlanks(s: string): (r: string)
    ensures |r| <= |s|
  {
    if s == [] then []
    else if IsBlank(s[0]) then
      if |s| > 1 && IsBlank(s[1]) then CollapseBlanks(s[1..])
      else " " + CollapseBlanks(s[1..])
    else [s[0]] + CollapseBlanks(s[1..])
  }

  /** After it no tab and no two spaces in a row are left, no NUL or CR is
      introduced, and the non-whitespace characters are those of the input. */
  lemma {:induction false} CollapseBlanksFacts(s: string)
    ensures var r := CollapseBlanks(s);
      && (r == [] <==> s == [])
      && (r != [] ==> (r[0] == ' ' <==> IsBlank(s[0])))
      && Lacks(r, '\t') && NoDoubleSpace(r)
      && (Lacks(s, '\0') ==> Lacks(r, '\0'))
      && (Lacks(s, '\r') ==> Lacks(r, '\r'))
      && NonSpace(r) == NonSpace(s)
  {
    if s != [] {
      var t := s[1..];
      var rest := CollapseBlanks(t);
      CollapseBlanksFacts(t);
      assert forall i :: 0 <= i < |t| ==> t[i] == s[i + 1];
      if !(IsBlank(s[0]) && |s| > 1 && IsBlank(s[1])) {
        var r := CollapseBlanks(s);
        assert r == [r[0]] + rest;
        assert r[1..] == rest;
        assert r[0] == if IsBlank(s[0]) then ' ' else s[0];
        assert forall i :: 0 < i < |r| ==> r[i] == rest[i - 1];
      }
    }
  }

  lemma {:induction false} CollapseBlanksUnchanged(s: string)
    requires Lacks(s, '\t') && NoDoubleSpace(s)
    ensures CollapseBlanks(s) == s
  {
    if s != [] {
      var t := s[1..];
      assert forall i :: 0 <= i < |t| ==> t[i] == s[i + 1];
      CollapseBlanksUnchanged(t);
      assert s == [s[0]] + t;
    }
  }

  predicate AllBlank(w: string) {
    forall i :: 0 <= i < |w| ==> IsBlank(w[i])
  }

  /** The rewrite works piece by piece when the first piece does not end in
      a blank: no run straddles the seam. */
  lemma {:induction false} CollapseBlanksAppend(a: string, t: string)
    requires a == [] || !IsBlank(a[|a| - 1])
    ensures CollapseBlanks(a + t) == CollapseBlanks(a) + CollapseBlanks(t)
  {
    if a == [] {
      assert a + t == t;
    } else {
      var a' := a[1..];
      assert (a + t)[0] == a[0];
      assert (a + t)[1..] == a' + t;
      if a' != [] {
        assert a'[|a'| - 1] == a[|a| - 1];
        assert (a + t)[1] == a[1];
      }
      CollapseBlanksAppend(a', t);
    }
  }

  /** A non-empty run of spaces and tabs followed by text that does not start
      with one becomes exactly one space. */
  lemma {:induction false} CollapseBlanksRun(w: string, b: string)
    requires w != [] && AllBlank(w)
    requires b == [] || !IsBlank(b[0])
    ensures CollapseBlanks(w + b) == " " + CollapseBlanks(b)
  {
    var s := w + b;
    assert s[0] == w[0] && s[1..] == w[1..] + b;
    if |w| == 1 {
      assert s[1..] == b;
    } else {
      assert s[1] == w[1];
      CollapseBlanksRun(w[1..], b);
    }
  }

  /** `re.sub(r"[ \t]+", " ", …)` on text split at one run of blanks: the run
      becomes a single space between the rewritten pieces. */
  lemma {:induction false} CollapseBlanksSplit(a: string, w: string, b: string)
    requires a == [] || !IsBlank(a[|a| - 1])
    requires w != [] && AllBlank(w)
    requires b == [] || !IsBlank(b[0])
    ensures CollapseBlanks(a + w + b) == CollapseBlanks(a) + " " + CollapseBlanks(b)
  {
    AppendAssoc(a, w, b);
    CollapseBlanksAppend(a, w + b);
    CollapseBlanksRun(w, b);
  }

  /** re.sub(r"\n{3,}", "\n\n", text): a run of three or more line breaks
      becomes two. A line break followed by two more is dropped. */
  function CapNewlines(s: string): (r: string)
    ensures |r| <= |s|
  {
    if s == [] then []
    else if |s| > 2 && s[0] == '\n' && s[1] == '\n' && s[2] == '\n' then CapNewlines(s[1..])
    else [s[0]] + CapNewlines(s[1..])
  }

  /** After it no three line breaks in a row are left, and it keeps the
      first character. */
  lemma {:induction false} CapNewlinesShape(s: string)
    ensures var r := CapNewlines(s);
      && (s != [] ==> r != [] && r[0] == s[0])
      && (|r| >= 2 && r[0] == '\n' && r[1] == '\n' ==> |s| >= 2 && s[1] == '\n')
      && NoTripleNewline(r)
  {
    if s != [] {
      var t := s[1..];
      var rest := CapNewlines(t);
      CapNewlinesShape(t);
      if !(|s| > 2 && s[0] == '\n' && s[1] == '\n' && s[2] == '\n') {
        var r := CapNewlines(s);
        assert r == [s[0]] + rest;
        assert forall i :: 0 < i < |r| ==> r[i] == rest[i - 1];
      }
    }
  }

  predicate AllNewlines(w: string) {
    forall i :: 0 <= i < |w| ==> w[i] == '\n'
  }

  /** The rewrite works piece by piece when the first piece does not end in a
      line break: no run straddles the seam. */
  lemma {:induction false} CapNewlinesAppend(a: string, t: string)
    requires a == [] || a[|a| - 1] != '\n'
    ensures CapNewlines(a + t) == CapNewlines(a) + CapNewlines(t)
  {
    if a == [] {
      assert a + t == t;
    } else {
      var s := a + t;
      var a' := a[1..];
      assert s[0] == a[0];
      assert s[1..] == a' + t;
      if |a| > 2 {
        assert s[1] == a[1] && s[2] == a[2];
      }
      if a' != [] {
        assert a'[|a'| - 1] == a[|a| - 1];
      }
      CapNewlinesAppend(a', t);
    }
  }

  /** A run of line breaks followed by text that does not start with one:
      three or more become exactly two, one or two stay as they are. */
  lemma {:induction false} CapNewlinesRun(w: string, b: string)
    requires w != [] && AllNewlines(w)
    requires b == [] || b[0] != '\n'
    ensures CapNewlines(w + b) == (if |w| >= 3 then "\n\n" else w) + CapNewlines(b)
  {
    var s := w + b;
    assert s[0] == w[0] && s[1..] == w[1..] + b;
    if |w| == 1 {
      assert s[1..] == b;
      assert |s| > 1 ==> s[1] == b[0];
    } else {
      assert s[1] == w[1];
      if |w| == 2 {
        assert |s| > 2 ==> s[2] == b[0];
      } else {
        assert s[2] == w[2];
      }
      CapNewlinesRun(w[1..], b);
      if |w| == 2 {
        assert w == [w[0]] + w[1..];
      }
    }
  }

  /** `re.sub(r"\n{3,}", "\n\n", …)` on text split at one run of line
      breaks: a run of three or more becomes "\n\n" between the rewritten
      pieces, and a shorter one is kept. */
  lemma {:induction false} CapNewlinesSplit(a: string, w: string, b: string)
    requires a == [] || a[|a| - 1] != '\n'
    requires w != [] && AllNewlines(w)
    requires b == [] || b[0] != '\n'
    ensures CapNewlines(a + w + b) == CapNewlines(a) + (if |w| >= 3 then "\n\n" else w) + CapNewlines(b)
  {
    AppendAssoc(a, w, b);
    CapNewlinesAppend(a, w + b);
    CapNewlinesRun(w, b);
  }

  /** It only drops line breaks, so it introduces no NUL, CR, tab or double
      space and keeps the non-whitespace characters. */
  lemma {:induction false} CapNewlinesKeeps(s: string)
    ensures var r := CapNewlines(s);
      && (NoDoubleSpace(s) ==> NoDoubleSpace(r))
      && (Lacks(s, '\0') ==> Lacks(r, '\0'))
      && (Lacks(s, '\r') ==> Lacks(r, '\r'))
      && (Lacks(s, '\t') ==> Lacks(r, '\t'))
      && NonSpace(r) == NonSpace(s)
  {
    if NoDoubleSpace(s) {
      CapNewlinesSpaces(s);
    }
    if Lacks(s, '\0') {
      CapNewlinesLacks(s, '\0');
    }
    if Lacks(s, '\r') {
      CapNewlinesLacks(s, '\r');
    }
    if Lacks(s, '\t') {
      CapNewlinesLacks(s, '\t');
    }
    CapNewlinesNonSpace(s);
  }

  /** The output is the input with some line breaks dropped, so a character
      missing from the input is missing from the output. */
  lemma {:induction false} CapNewlinesLacks(s: string, x: char)
    requires Lacks(s, x)
    ensures Lacks(CapNewlines(s), x)
  {
    if s != [] {
      var t := s[1..];
      assert forall i :: 0 <= i < |t| ==> t[i] == s[i + 1];
      CapNewlinesLacks(t, x);
      var rest := CapNewlines(t);
      if !(|s| > 2 && s[0] == '\n' && s[1] == '\n' && s[2] == '\n') {
        var r := CapNewlines(s);
        assert r == [s[0]] + rest;
        assert forall i :: 0 < i < |r| ==> r[i] == rest[i - 1];
      }
    }
  }

  lemma {:induction false} CapNewlinesSpaces(s: string)
    requires NoDoubleSpace(s)
    ensures NoDoubleSpace(CapNewlines(s))
  {
    if s != [] {
      var t := s[1..];
      assert forall i :: 0 <= i < |t| ==> t[i] == s[i + 1];
      CapNewlinesSpaces(t);
      CapNewlinesShape(t);
      var rest := CapNewlines(t);
      if !(|s| > 2 && s[0] == '\n' && s[1] == '\n' && s[2] == '\n') {
        var r := CapNewlines(s);
        assert r == [s[0]] + rest;
        assert forall i :: 0 < i < |r| ==> r[i] == rest[i - 1];
      }
    }
  }

  lemma {:induction false} CapNewlinesNonSpace(s: string)
    ensures NonSpace(CapNewlines(s)) == NonSpace(s)
  {
    if s != [] {
      var t := s[1..];
      CapNewlinesNonSpace(t);
      var rest := CapNewlines(t);
      if !(|s| > 2 && s[0] == '\n' && s[1] == '\n' && s[2] == '\n') {
        var r := CapNewlines(s);
        assert r == [s[0]] + rest;
        assert r[1..] == rest;
      }
    }
  }

  lemma {:induction false} CapNewlinesUnchanged(s: string)
    requires NoTripleNewline(s)
    ensures CapNewlines(s) == s
  {
    if s != [] {
      var t := s[1..];
      assert forall i :: 0 <= i < |t| ==> t[i] == s[i + 1];
      CapNewlinesUnchanged(t);
      assert s == [s[0]] + t;
    }
  }

  // ---------------------------------------------------------------------
  // clean_text
  // ---------------------------------------------------------------------

  /** The three regex rewrites of clean_text, after the NUL replacement. */
  function Rewritten(text: string): string {
    CapNewlines(CollapseBlanks(NormalizeNewlines(ReplaceNul(text))))
  }

  /** clean_text (lines 12-20): "" for an empty page, otherwise the four
      rewrites in order, then strip. */
  function CleanText(text: string): (r: string)
    ensures |r| <= |text|
  {
    if text == [] then [] else Strip(Rewritten(text))
  }

  /** What the rewrites guarantee before stripping. */
  lemma {:induction false} RewrittenFacts(text: string)
    ensures var c := Rewritten(text);
      && Lacks(c, '\0') && Lacks(c, '\r') && Lacks(c, '\t')
      && NoDoubleSpace(c) && NoTripleNewline(c)
      && NonSpace(c) == NonSpace(ReplaceNul(text))
  {
    var a := ReplaceNul(text);
    NormalizeNewlinesFacts(a);
    var b := NormalizeNewlines(a);
    CollapseBlanksFacts(b);
    CapNewlinesShape(CollapseBlanks(b));
    CapNewlinesKeeps(CollapseBlanks(b));
  }

  /** Every output of clean_text is clean; an empty page gives "". */
  lemma {:induction false} CleanTextIsClean(text: string)
    ensures text == [] ==> CleanText(text) == []
    ensures IsClean(CleanText(text))
  {
    if text != [] {
      RewrittenFacts(text);
      StripKeepsClean(Rewritten(text));
    }
  }

  /** Stripping a string with no NUL, CR, tab, double space or triple line
      break leaves a clean string. */
  lemma {:induction false} StripKeepsClean(c: string)
    requires Lacks(c, '\0') && Lacks(c, '\r') && Lacks(c, '\t')
    requires NoDoubleSpace(c) && NoTripleNewline(c)
    ensures IsClean(Strip(c))
  {
    var r := Strip(c);
    var k := StripStart(c);
    SliceLacks(c, k, r, '\0');
    SliceLacks(c, k, r, '\r');
    SliceLacks(c, k, r, '\t');
    SliceKeepsRuns(c, k, r);
  }

  lemma {:induction false} SliceLacks(c: string, k: nat, r: string, x: char)
    requires k + |r| <= |c| && r == c[k..k + |r|] && Lacks(c, x)
    ensures Lacks(r, x)
  {
    assert forall i :: 0 <= i < |r| ==> r[i] == c[k + i];
  }

  lemma {:induction false} SliceKeepsRuns(c: string, k: nat, r: string)
    requires k + |r| <= |c| && r == c[k..k + |r|]
    requires NoDoubleSpace(c) && NoTripleNewline(c)
    ensures NoDoubleSpace(r) && NoTripleNewline(r)
  {
    assert forall i :: 0 <= i < |r| ==> r[i] == c[k + i];
  }

  /** Cleaning changes whitespace only: apart from NULs, which become
      spaces, the non-whitespace characters are kept in order. */
  lemma {:induction false} CleanTextKeepsContent(text: string)
    ensures NonSpace(CleanText(text)) == NonSpace(ReplaceNul(text))
    ensures Lacks(text, '\0') ==> NonSpace(CleanText(text)) == NonSpace(text)
  {
    if text != [] {
      RewrittenFacts(text);
      StripKeepsContent(Rewritten(text));
    }
    if Lacks(text, '\0') {
      assert ReplaceNul(text) == text;
    }
  }

  /** A clean string is a fixed point of clean_text. */
  lemma {:induction false} CleanTextFixesClean(s: string)
    requires IsClean(s)
    ensures CleanText(s) == s
  {
    if s != [] {
      assert ReplaceNul(s) == s;
      NormalizeNewlinesUnchanged(s);
      CollapseBlanksUnchanged(s);
      CapNewlinesUnchanged(s);
      StripUnchanged(s);
    }
  }

  /** clean_text is idempotent. */
  lemma {:induction false} CleanTextIdempotent(text: string)
    ensures CleanText(CleanText(text)) == CleanText(text)
  {
    CleanTextIsClean(text);
    CleanTextFixesClean(CleanText(text));
  }

  // ---------------------------------------------------------------------
  // combine_texts
  // ---------------------------------------------------------------------

  /** Every page is non-empty and clean. */
  predicate CleanPages(pages: seq<string>) {
    forall i :: 0 <= i < |pages| ==> pages[i] != [] && IsClean(pages[i])
  }

  /** `[clean_text(t) for t in texts if t]`, then only the non-empty ones. */
  function CleanedPages(texts: seq<string>): (pages: seq<string>)
    ensures |pages| <= |texts|
    ensures CleanPages(pages)
  {
    if texts == [] then []
    else
      var c := CleanText(texts[0]);
      var rest := CleanedPages(texts[1..]);
      if texts[0] == [] || c == [] then rest
      else
        CleanTextIsClean(texts[0]);
        var pages := [c] + rest;
        assert forall i :: 0 < i < |pages| ==> pages[i] == rest[i - 1];
        pages
  }

  /** A single text contributes its cleaned form, or nothing when that is
      empty. */
  lemma {:induction false} CleanedPagesOne(t: string)
    ensures CleanedPages([t]) == if CleanText(t) == [] then [] else [CleanText(t)]
  {
    assert [t][0] == t && [t][1..] == [];
  }

  /** The pages of a concatenation are the pages of each part, in order. */
  lemma {:induction false} CleanedPagesAppend(a: seq<string>, b: seq<string>)
    ensures CleanedPages(a + b) == CleanedPages(a) + CleanedPages(b)
    decreases |a|
  {
    if a == [] {
      assert a + b == b;
    } else {
      assert (a + b)[0] == a[0];
      assert (a + b)[1..] == a[1..] + b;
      CleanedPagesAppend(a[1..], b);
      CleanedPagesStep(a + b);
      CleanedPagesStep(a);
      var head := PageOf(a[0]);
      AppendAssoc(head, CleanedPages(a[1..]), CleanedPages(b));
    }
  }

  /** What one text adds to the page list. */
  function PageOf(t: string): seq<string> {
    if t == [] || CleanText(t) == [] then [] else [CleanText(t)]
  }

  lemma {:induction false} CleanedPagesStep(texts: seq<string>)
    requires texts != []
    ensures CleanedPages(texts) == PageOf(texts[0]) + CleanedPages(texts[1..])
  {
    var c := CleanText(texts[0]);
    if texts[0] == [] || c == [] {
      assert PageOf(texts[0]) == [];
    } else {
      assert PageOf(texts[0]) == [c];
    }
  }

  /** combine_texts (lines 39-42). */
  function CombineTexts(texts: seq<string>): (corpus: string)
    ensures IsClean(corpus)
  {
    JoinPagesClean(CleanedPages(texts));
    Join("\n\n", CleanedPages(texts))
  }

  /** No pages combine to nothing; one page combines to its cleaned text. */
  lemma {:induction false} CombineTextsSmall(t: string)
    ensures CombineTexts([]) == []
    ensures CombineTexts([t]) == CleanText(t)
  {
    assert [t][1..] == [];
    CleanTextIsClean(t);
  }

  /** The corpus is empty exactly when every page cleans to nothing. */
  lemma {:induction false} CombineTextsEmptyIff(texts: seq<string>)
    ensures CombineTexts(texts) == [] <==> forall i :: 0 <= i < |texts| ==> CleanText(texts[i]) == []
  {
    var pages := CleanedPages(texts);
    JoinEmptyIff("\n\n", pages);
    if pages != [] {
      assert pages[0] != [];
    }
    PagesEmptyIff(texts);
  }

  lemma {:induction false} PagesEmptyIff(texts: seq<string>)
    ensures CleanedPages(texts) == [] <==> forall i :: 0 <= i < |texts| ==> CleanText(texts[i]) == []
  {
    if texts != [] {
      PagesEmptyIff(texts[1..]);
      CleanedPagesStep(texts);
      BlankCons(texts);
      assert PageOf(texts[0]) == [] <==> CleanText(texts[0]) == [];
    }
  }

  lemma {:induction false} BlankCons(texts: seq<string>)
    requires texts != []
    ensures (forall i :: 0 <= i < |texts| ==> CleanText(texts[i]) == [])
        <==> CleanText(texts[0]) == [] && forall i :: 0 <= i < |texts[1..]| ==> CleanText(texts[1..][i]) == []
  {
    var tail := texts[1..];
    assert forall i :: 0 <= i < |tail| ==> tail[i] == texts[i + 1];
    assert forall i :: 0 < i < |texts| ==> texts[i] == tail[i - 1];
  }

  /** Joining two clean non-empty strings with a blank line gives a clean
      string. */
  lemma {:induction false} ParagraphJoinClean(a: string, b: string)
    requires a != [] && b != [] && IsClean(a) && IsClean(b)
    ensures IsClean(a + "\n\n" + b)
  {
    var s := a + "\n\n" + b;
    ParagraphJoinLacks(a, b, '\0');
    ParagraphJoinLacks(a, b, '\r');
    ParagraphJoinLacks(a, b, '\t');
    ParagraphJoinSpaces(a, b);
    ParagraphJoinNewlines(a, b);
    assert s[0] == a[0] && s[|s| - 1] == b[|b| - 1];
  }

  lemma {:induction false} ParagraphJoinLacks(a: string, b: string, x: char)
    requires x != '\n' && Lacks(a, x) && Lacks(b, x)
    ensures Lacks(a + "\n\n" + b, x)
  {
    var s := a + "\n\n" + b;
    assert forall i :: 0 <= i < |a| ==> s[i] == a[i];
    assert forall i :: |a| + 2 <= i < |s| ==> s[i] == b[i - |a| - 2];
  }

  lemma {:induction false} ParagraphJoinSpaces(a: string, b: string)
    requires NoDoubleSpace(a) && NoDoubleSpace(b)
    ensures NoDoubleSpace(a + "\n\n" + b)
  {
    var s := a + "\n\n" + b;
    forall i | 0 <= i < |s| - 1
      ensures !(s[i] == ' ' && s[i + 1] == ' ')
    {
      if i + 1 < |a| {
        assert s[i] == a[i] && s[i + 1] == a[i + 1];
      } else if i >= |a| + 2 {
        assert s[i] == b[i - |a| - 2] && s[i + 1] == b[i + 1 - |a| - 2];
      } else if i == |a| - 1 {
        assert s[i + 1] == '\n';
      } else {
        assert s[i] == '\n';
      }
    }
  }

  lemma {:induction false} ParagraphJoinNewlines(a: string, b: string)
    requires a != [] && b != [] && !IsSpace(a[|a| - 1]) && !IsSpace(b[0])
    requires NoTripleNewline(a) && NoTripleNewline(b)
    ensures NoTripleNewline(a + "\n\n" + b)
  {
    var s := a + "\n\n" + b;
    forall i | 0 <= i < |s| - 2
      ensures !(s[i] == '\n' && s[i + 1] == '\n' && s[i + 2] == '\n')
    {
      if i + 2 < |a| {
        assert s[i] == a[i] && s[i + 1] == a[i + 1] && s[i + 2] == a[i + 2];
      } else if i >= |a| + 2 {
        assert s[i] == b[i - |a| - 2] && s[i + 1] == b[i + 1 - |a| - 2] && s[i + 2] == b[i + 2 - |a| - 2];
      } else if i == |a| - 1 || i == |a| - 2 {
        assert s[|a| - 1] == a[|a| - 1];
      } else if i == |a| {
        assert s[i + 2] == b[0];
      } else {
        assert s[i + 1] == b[0];
      }
    }
  }

  /** Pages joined with blank lines form a clean text. */
  lemma {:induction false} JoinPagesClean(pages: seq<string>)
    requires CleanPages(pages)
    ensures IsClean(Join("\n\n", pages))
    ensures pages != [] ==> Join("\n\n", pages) != []
  {
    if |pages| > 1 {
      assert forall i :: 0 <= i < |pages[1..]| ==> pages[1..][i] == pages[i + 1];
      JoinPagesClean(pages[1..]);
      ParagraphJoinClean(pages[0], Join("\n\n", pages[1..]));
    }
  }

  /** The combined corpus is itself clean, so cleaning it again changes
      nothing. */
  lemma {:induction false} CombineTextsClean(texts: seq<string>)
    ensures IsClean(CombineTexts(texts))
    ensures CleanText(CombineTexts(texts)) == CombineTexts(texts)
  {
    JoinPagesClean(CleanedPages(texts));
    CleanTextFixesClean(CombineTexts(texts));
  }
}
