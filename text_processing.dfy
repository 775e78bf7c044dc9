/** Whitespace normalisation and the sliding-window chunker with soft
    sentence boundaries (eduweave/text_processing.py). */
module TextProcessing {
  import opened Common

  // ---------------------------------------------------------------------
  // Whitespace normalisation
  // ---------------------------------------------------------------------

  /** re.sub(r"\s+", " ", s): every maximal run of whitespace becomes one
      space. A whitespace character followed by another one is dropped, the
      last one of a run is written as ' '. */
  function CollapseRuns(s: string): (r: string)
    ensures r == [] <==> s == []
    ensures r != [] ==> (IsSpace(r[0]) <==> IsSpace(s[0]))
    ensures forall i :: 0 <= i < |r| && IsSpace(r[i]) ==> r[i] == ' '
    ensures forall i :: 0 <= i < |r| - 1 ==> !(IsSpace(r[i]) && IsSpace(r[i + 1]))
    ensures NonSpace(r) == NonSpace(s)
  {
    if s == [] then []
    else if IsSpace(s[0]) then
      if |s| > 1 && IsSpace(s[1]) then CollapseRuns(s[1..])
      else
        var r := " " + CollapseRuns(s[1..]);
        assert NonSpace(r) == NonSpace(CollapseRuns(s[1..]));
        r
    else
      var r := [s[0]] + CollapseRuns(s[1..]);
      assert NonSpace(r) == [s[0]] + NonSpace(CollapseRuns(s[1..]));
      r
  }

  /** A string in the shape `_normalize_whitespace` produces: no whitespace
      at either end, ' ' as the only whitespace character, and never two
      whitespace characters side by side. */
  predicate IsNormalized(s: string) {
    && (s == [] || (!IsSpace(s[0]) && !IsSpace(s[|s| - 1])))
    && (forall i :: 0 <= i < |s| && IsSpace(s[i]) ==> s[i] == ' ')
    && (forall i :: 0 <= i < |s| - 1 ==> !(IsSpace(s[i]) && IsSpace(s[i + 1])))
  }

  /** `_normalize_whitespace(text)`. Python's `text or ""` makes None and ""
      behave alike; the model takes the string, with "" standing for both. */
  function NormalizeWhitespace(text: string): (r: string)
    ensures IsNormalized(r)
    ensures NonSpace(r) == NonSpace(text)
    ensures r == [] <==> AllSpace(text)
  {
    NormalizeFacts(text);
    Strip(CollapseRuns(text))
  }

  lemma {:induction false} NormalizeFacts(text: string)
    ensures var r := Strip(CollapseRuns(text));
      IsNormalized(r) && NonSpace(r) == NonSpace(text) && (r == [] <==> AllSpace(text))
  {
    var c := CollapseRuns(text);
    StripKeepsShape(c);
    StripKeepsContent(c);
    NonSpaceEmpty(text);
    NonSpaceEmpty(c);
  }

  /** A slice of a string without whitespace runs has none either, and
      Strip's result has no whitespace at its ends. */
  lemma {:induction false} StripKeepsShape(c: string)
    requires forall i :: 0 <= i < |c| && IsSpace(c[i]) ==> c[i] == ' '
    requires forall i :: 0 <= i < |c| - 1 ==> !(IsSpace(c[i]) && IsSpace(c[i + 1]))
    ensures IsNormalized(Strip(c))
  {
    var r := Strip(c);
    var k := StripStart(c);
    assert forall i :: 0 <= i < |r| ==> r[i] == c[k + i];
  }

  /** On a string with no whitespace runs and only ' ' as whitespace,
      collapsing changes nothing. */
  lemma {:induction false} CollapseRunsUnchanged(s: string)
    requires forall i :: 0 <= i < |s| && IsSpace(s[i]) ==> s[i] == ' '
    requires forall i :: 0 <= i < |s| - 1 ==> !(IsSpace(s[i]) && IsSpace(s[i + 1]))
    ensures CollapseRuns(s) == s
  {
    if s != [] {
      assert forall i :: 0 <= i < |s[1..]| ==> s[1..][i] == s[i + 1];
      CollapseRunsUnchanged(s[1..]);
      assert s == [s[0]] + s[1..];
    }
  }

  /** Collapsing works piece by piece when the first piece does not end in
      whitespace: no run straddles the seam. */
  lemma {:induction false} CollapseRunsAppend(a: string, t: string)
    requires a == [] || !IsSpace(a[|a| - 1])
    ensures CollapseRuns(a + t) == CollapseRuns(a) + CollapseRuns(t)
  {
    if a == [] {
      assert a + t == t;
    } else {
      var a' := a[1..];
      assert (a + t)[0] == a[0];
      assert (a + t)[1..] == a' + t;
      if a' != [] {
        assert a'[|a'| - 1] == a[|a| - 1];
        assert (a + t)[1] == a[1];
      }
      CollapseRunsAppend(a', t);
    }
  }

  /** A non-empty run of whitespace followed by text that does not start with
      whitespace becomes exactly one space. */
  lemma {:induction false} CollapseRunsRun(w: string, b: string)
    requires w != [] && AllSpace(w)
    requires b == [] || !IsSpace(b[0])
    ensures CollapseRuns(w + b) == " " + CollapseRuns(b)
  {
    var s := w + b;
    assert s[0] == w[0] && s[1..] == w[1..] + b;
    if |w| == 1 {
      assert s[1..] == b;
    } else {
      assert s[1] == w[1];
      CollapseRunsRun(w[1..], b);
    }
  }

  /** `re.sub(r"\s+", " ", …)` on text split at one whitespace run: the run
      becomes a single space between the collapsed pieces, so words on
      either side of it neither merge nor gain extra whitespace. */
  lemma {:induction false} CollapseRunsSplit(a: string, w: string, b: string)
    requires a == [] || !IsSpace(a[|a| - 1])
    requires w != [] && AllSpace(w)
    requires b == [] || !IsSpace(b[0])
    ensures CollapseRuns(a + w + b) == CollapseRuns(a) + " " + CollapseRuns(b)
  {
    AppendAssoc(a, w, b);
    CollapseRunsAppend(a, w + b);
    CollapseRunsRun(w, b);
  }

  /** Collapsing keeps a non-whitespace last character. */
  lemma {:induction false} CollapseRunsLast(a: string)
    requires a != [] && !IsSpace(a[|a| - 1])
    ensures var r := CollapseRuns(a); r != [] && r[|r| - 1] == a[|a| - 1]
  {
    if |a| > 1 {
      var a' := a[1..];
      assert a'[|a'| - 1] == a[|a| - 1];
      CollapseRunsLast(a');
    }
  }

  /** `_normalize_whitespace` on two pieces of text separated by one
      whitespace run: the result is the two normalised pieces joined by a
      single space. */
  lemma {:induction false} NormalizeSplit(a: string, w: string, b: string)
    requires a != [] && !IsSpace(a[|a| - 1])
    requires w != [] && AllSpace(w)
    requires b != [] && !IsSpace(b[0])
    ensures NormalizeWhitespace(a + w + b) == NormalizeWhitespace(a) + " " + NormalizeWhitespace(b)
  {
    CollapseRunsSplit(a, w, b);
    CollapseRunsLast(a);
    StripAround(CollapseRuns(a), CollapseRuns(b));
  }

  /** Normalisation leaves normalised text alone, so it is idempotent. */
  lemma {:induction false} NormalizeFixesNormalized(s: string)
    requires IsNormalized(s)
    ensures NormalizeWhitespace(s) == s
  {
    CollapseRunsUnchanged(s);
    StripUnchanged(s);
  }

  lemma {:induction false} NormalizeIdempotent(text: string)
    ensures NormalizeWhitespace(NormalizeWhitespace(text)) == NormalizeWhitespace(text)
  {
    NormalizeFixesNormalized(NormalizeWhitespace(text));
  }

  /** Normalised text holds no line break, so the "\n\n" and "\n"
      separators of the default list can never be found in it. */
  lemma {:induction false} NormalizedHasNoNewline(s: string)
    requires IsNormalized(s)
    ensures forall i :: 0 <= i < |s| ==> s[i] != '\n'
  {
    assert IsSpace('\n');
  }

  // ---------------------------------------------------------------------
  // Separator search
  // ---------------------------------------------------------------------

  predicate OccursAt(s: string, sep: string, j: int) {
    0 <= j && j + |sep| <= |s| && s[j..j + |sep|] == sep
  }

  function RFindFrom(s: string, sep: string, i: int): (r: int)
    requires i <= |s| - |sep|
    ensures r == -1 || 0 <= r <= i
    ensures r >= 0 ==> OccursAt(s, sep, r)
    ensures forall j :: r < j <= i ==> !OccursAt(s, sep, j)
    decreases i + 1
  {
    if i < 0 then -1
    else if s[i..i + |sep|] == sep then i
    else RFindFrom(s, sep, i - 1)
  }

  /** str.rfind: the highest index at which `sep` occurs in `s`, or -1. */
  function RFind(s: string, sep: string): (r: int)
    ensures r == -1 || 0 <= r <= |s| - |sep|
    ensures r >= 0 ==> OccursAt(s, sep, r)
    ensures forall j :: r < j <= |s| - |sep| ==> !OccursAt(s, sep, j)
  {
    RFindFrom(s, sep, |s| - |sep|)
  }

  /** RFind finds the last occurrence: -1 exactly when there is none. */
  lemma {:induction false} RFindLast(s: string, sep: string, j: int)
    requires OccursAt(s, sep, j)
    ensures j <= RFind(s, sep)
  {
  }

  /** The default separator priority list (eduweave/config.py:16). */
  const DefaultSeparators: seq<string> := ["\n\n", "\n", ". ", " ", ""]

  /** Where the chunk would end if it were cut after the last occurrence of
      `sep` in the window text[start..end]: after the separator's stripped
      text, so ". " keeps its period. None when `sep` is empty or absent. */
  function CutAt(text: string, start: nat, end: nat, sep: string): (r: Option<nat>)
    requires start <= end <= |text|
    ensures r.Some? ==> start <= r.value <= end
    ensures r.Some? <==> sep != [] && RFind(text[start..end], sep) != -1
  {
    if sep == [] then None
    else
      var idx := RFind(text[start..end], sep);
      if idx == -1 then None
      else Some(start + idx + |Strip(sep)|)
  }

  /** A cut qualifies when it lies at least 0.6 * size past `start`. */
  predicate Qualifies(text: string, start: nat, end: nat, size: nat, sep: string)
    requires start <= end <= |text|
  {
    var cut := CutAt(text, start, end, sep);
    cut.Some? && 10 * (cut.value - start) >= 6 * size
  }

  /** The `for sep in separators` loop of chunk_text: the end of the chunk
      after looking for a natural boundary. */
  function AdjustedEnd(text: string, start: nat, end: nat, size: nat, seps: seq<string>): (r: nat)
    requires start <= end <= |text|
    ensures start <= r <= end
    ensures r == end || 10 * (r - start) >= 6 * size
  {
    if seps == [] then end
    else if Qualifies(text, start, end, size, seps[0]) then CutAt(text, start, end, seps[0]).value
    else AdjustedEnd(text, start, end, size, seps[1..])
  }

  /** AdjustedEnd picks the first separator, in priority order, whose cut
      qualifies, and falls back to the raw window end when none does. */
  lemma {:induction false} AdjustedEndIsFirstQualifying(text: string, start: nat, end: nat, size: nat, seps: seq<string>, k: nat)
    requires start <= end <= |text|
    requires k < |seps| && Qualifies(text, start, end, size, seps[k])
    requires forall j :: 0 <= j < k ==> !Qualifies(text, start, end, size, seps[j])
    ensures AdjustedEnd(text, start, end, size, seps) == CutAt(text, start, end, seps[k]).value
  {
    if k > 0 {
      assert !Qualifies(text, start, end, size, seps[0]);
      AdjustedEndIsFirstQualifying(text, start, end, size, seps[1..], k - 1);
    }
  }

  lemma {:induction false} AdjustedEndFallsBack(text: string, start: nat, end: nat, size: nat, seps: seq<string>)
    requires start <= end <= |text|
    requires forall j :: 0 <= j < |seps| ==> !Qualifies(text, start, end, size, seps[j])
    ensures AdjustedEnd(text, start, end, size, seps) == end
  {
    if seps != [] {
      assert !Qualifies(text, start, end, size, seps[0]);
      AdjustedEndFallsBack(text, start, end, size, seps[1..]);
    }
  }

  /** The separators of the default list, stripped as `len(sep.strip())` sees them. */
  lemma {:induction false} StrippedDefaultSeparators()
    ensures Strip(". ") == "." && Strip(" ") == []
  {
    StrippedSentenceSeparator();
    StrippedSpaceSeparator();
  }

  lemma {:induction false} StrippedSentenceSeparator()
    ensures Strip(". ") == "."
  {
    assert LeadingSpaces(". ") == 0;
    assert TrailingSpaces(". "[..1]) == 0;
    assert TrailingSpaces(". ") == 1;
    assert ". "[0..1] == ".";
  }

  lemma {:induction false} StrippedSpaceSeparator()
    ensures Strip(" ") == []
  {
    assert AllSpace(" ");
  }

  lemma {:induction false} OccursAtChars(s: string, sep: string, j: int)
    requires OccursAt(s, sep, j)
    ensures forall k :: 0 <= k < |sep| ==> s[j + k] == sep[k]
  {
    forall k | 0 <= k < |sep| ensures s[j + k] == sep[k] {
      assert s[j..j + |sep|][k] == s[j + k];
    }
  }

  /** A cut at ". " lands right after the period. */
  lemma {:induction false} SentenceCutKeepsPeriod(text: string, start: nat, end: nat)
    requires start <= end <= |text|
    requires CutAt(text, start, end, ". ").Some?
    ensures var c := CutAt(text, start, end, ". ").value;
      start < c < end && text[c - 1] == '.' && text[c] == ' '
  {
    var w := text[start..end];
    var idx := RFind(w, ". ");
    OccursAtChars(w, ". ", idx);
    StrippedSentenceSeparator();
    assert w[idx] == text[start + idx];
    assert w[idx + 1] == text[start + idx + 1];
  }

  /** In normalised text a line-break separator is never found. */
  lemma {:induction false} NewlineSeparatorsNeverCut(text: string, start: nat, end: nat)
    requires start <= end <= |text| && IsNormalized(text)
    ensures CutAt(text, start, end, "\n\n").None?
    ensures CutAt(text, start, end, "\n").None?
  {
    NormalizedHasNoNewline(text);
    var w := text[start..end];
    forall j | 0 <= j < |w| ensures !OccursAt(w, "\n", j) && !OccursAt(w, "\n\n", j) {
      assert w[j] == text[start + j];
    }
  }

  // ---------------------------------------------------------------------
  // The chunking loop
  // ---------------------------------------------------------------------

  const MinChunkSize: int := 200

  /** `max(chunk_size, 200)` */
  function EffectiveSize(chunkSize: int): (r: int)
    ensures r >= MinChunkSize
    ensures chunkSize >= MinChunkSize ==> r == chunkSize
    ensures chunkSize < MinChunkSize ==> r == MinChunkSize
  {
    Max(chunkSize, MinChunkSize)
  }

  /** `max(0, min(chunk_overlap, chunk_size - 1))` */
  function EffectiveOverlap(chunkOverlap: int, size: int): (r: int)
    requires size >= 1
    ensures 0 <= r <= size - 1
    ensures 0 <= chunkOverlap <= size - 1 ==> r == chunkOverlap
  {
    Max(0, Min(chunkOverlap, size - 1))
  }

  /** What the loop needs of its clamped parameters. */
  predicate ValidParams(size: int, overlap: int) {
    size >= MinChunkSize && 0 <= overlap < size
  }

  /** Lines 34-48: the end of the chunk that starts at `start`, after the
      search for a natural boundary in the window of `size` characters. */
  function Boundary(text: string, size: nat, separators: seq<string>, start: nat): (ae: nat)
    requires size >= MinChunkSize && start < |text|
    ensures start < ae <= Min(start + size, |text|)
    ensures ae == Min(start + size, |text|) || 10 * (ae - start) >= 6 * size
  {
    AdjustedEnd(text, start, Min(start + size, |text|), size, separators)
  }

  /** Line 57: `start = max(adjusted_end - chunk_overlap, 0)` */
  function NextStart(adjustedEnd: nat, overlap: nat): nat {
    Max(adjustedEnd - overlap, 0)
  }

  /** Lines 50-52: `if chunk: chunks.append(chunk)` */
  function Emit(chunk: string): seq<string> {
    if chunk != [] then [chunk] else []
  }

  /** `chunk` in front of the chunks of a run that finished; a run that
      did not finish stays unfinished. */
  function Prepend(chunk: seq<string>, rest: Option<seq<string>>): Option<seq<string>> {
    if rest.None? then None else Some(chunk + rest.value)
  }

  /** The loop as written: it stops only at lines 54-55 and 58-59, never
      because the cursor failed to move. `fuel` bounds the number of passes;
      None means the loop was still running when the fuel ran out. */
  function RunAsWritten(text: string, size: nat, overlap: nat, separators: seq<string>, start: nat, fuel: nat)
    : (r: Option<seq<string>>)
    requires ValidParams(size, overlap)
    ensures r.Some? ==> |r.value| <= fuel
    decreases fuel
  {
    if start >= |text| then Some([])
    else if fuel == 0 then None
    else
      var ae := Boundary(text, size, separators, start);
      var chunk := Emit(Strip(text[start..ae]));
      if ae >= |text| then Some(chunk)
      else Prepend(chunk, RunAsWritten(text, size, overlap, separators, NextStart(ae, overlap), fuel - 1))
  }

  /** The loop with a progress guard added: it also stops when the new
      cursor would not lie past the old one. */
  function ChunksFrom(text: string, size: nat, overlap: nat, separators: seq<string>, start: nat): (r: seq<string>)
    requires ValidParams(size, overlap)
    ensures start >= |text| ==> r == []
    ensures start < |text| ==> |r| <= |text| - start
    decreases |text| - start
  {
    if start >= |text| then []
    else
      var ae := Boundary(text, size, separators, start);
      var chunk := Emit(Strip(text[start..ae]));
      var next := NextStart(ae, overlap);
      if ae >= |text| || next <= start then chunk
      else chunk + ChunksFrom(text, size, overlap, separators, next)
  }

  /** One unfolding of RunAsWritten with `rest + 1` passes left, for a
      boundary already computed. */
  lemma {:induction false} RunAsWrittenStep(text: string, size: nat, overlap: nat, separators: seq<string>,
                                            start: nat, rest: nat, ae: nat)
    requires ValidParams(size, overlap) && start < |text|
    requires ae == AdjustedEnd(text, start, Min(start + size, |text|), size, separators)
    ensures ae >= |text| ==>
      RunAsWritten(text, size, overlap, separators, start, rest + 1) == Some(Emit(Strip(text[start..ae])))
    ensures ae < |text| ==>
      RunAsWritten(text, size, overlap, separators, start, rest + 1)
      == Prepend(Emit(Strip(text[start..ae])), RunAsWritten(text, size, overlap, separators, NextStart(ae, overlap), rest))
  {
    assert Boundary(text, size, separators, start) == ae;
  }

  /** One unfolding of ChunksFrom, for a boundary already computed. */
  lemma {:induction false} ChunksFromStep(text: string, size: nat, overlap: nat, separators: seq<string>, start: nat, ae: nat)
    requires ValidParams(size, overlap) && start < |text|
    requires ae == AdjustedEnd(text, start, Min(start + size, |text|), size, separators)
    ensures ae >= |text| || NextStart(ae, overlap) <= start ==>
      ChunksFrom(text, size, overlap, separators, start) == Emit(Strip(text[start..ae]))
    ensures ae < |text| && NextStart(ae, overlap) > start ==>
      ChunksFrom(text, size, overlap, separators, start)
      == Emit(Strip(text[start..ae])) + ChunksFrom(text, size, overlap, separators, NextStart(ae, overlap))
  {
  }

  /** chunk_text's result: [] for blank text, otherwise the loop from 0
      over the normalised text with the clamped parameters. */
  function Chunks(text: string, chunkSize: int, chunkOverlap: int, separators: seq<string>): (r: seq<string>)
    ensures |r| <= |NormalizeWhitespace(text)|
  {
    var normalized := NormalizeWhitespace(text);
    var size := EffectiveSize(chunkSize);
    if normalized == [] then []
    else ChunksFrom(normalized, size, EffectiveOverlap(chunkOverlap, size), separators, 0)
  }

  /** The `for sep in separators` loop of chunk_text (lines 38-48), which
      stops at the first separator whose cut qualifies. */
  method FindBoundary(normalized: string, start: nat, end: nat, size: nat, separators: seq<string>)
    returns (adjustedEnd: nat)
    requires start <= end <= |normalized|
    ensures adjustedEnd == AdjustedEnd(normalized, start, end, size, separators)
  {
    var window := normalized[start..end];
    adjustedEnd := end;
    var i := 0;
    while i < |separators|
      invariant 0 <= i <= |separators|
      invariant AdjustedEnd(normalized, start, end, size, separators)
             == AdjustedEnd(normalized, start, end, size, separators[i..])
    {
      var sep := separators[i];
      assert separators[i..][0] == sep && separators[i..][1..] == separators[i + 1..];
      if sep == [] {
        i := i + 1;
        continue;
      }
      var idx := RFind(window, sep);
      if idx == -1 {
        i := i + 1;
        continue;
      }
      var absoluteIdx := start + idx + |Strip(sep)|;
      if 10 * (absoluteIdx - start) >= 6 * size {
        adjustedEnd := absoluteIdx;
        return;
      }
      i := i + 1;
    }
  }

  /** One pass of the cursor loop keeps its invariant, and a pass that
      stops the loop completes the result. */
  lemma {:induction false} SplitStep(text: string, size: nat, overlap: nat, separators: seq<string>,
                                     start: nat, ae: nat, before: seq<string>)
    requires ValidParams(size, overlap) && start < |text|
    requires ae == AdjustedEnd(text, start, Min(start + size, |text|), size, separators)
    requires before + ChunksFrom(text, size, overlap, separators, start)
          == ChunksFrom(text, size, overlap, separators, 0)
    ensures ae >= |text| || NextStart(ae, overlap) <= start ==>
      before + Emit(Strip(text[start..ae])) == ChunksFrom(text, size, overlap, separators, 0)
    ensures ae < |text| && NextStart(ae, overlap) > start ==>
      (before + Emit(Strip(text[start..ae]))) + ChunksFrom(text, size, overlap, separators, NextStart(ae, overlap))
      == ChunksFrom(text, size, overlap, separators, 0)
  {
    ChunksFromStep(text, size, overlap, separators, start, ae);
    AppendAssoc(before, Emit(Strip(text[start..ae])),
                ChunksFrom(text, size, overlap, separators, NextStart(ae, overlap)));
  }

  /** The cursor loop of chunk_text (lines 29-59) over normalised text and
      clamped parameters, with the guard that stops it when the cursor would
      not move forward. */
  method Split(normalized: string, size: nat, overlap: nat, separators: seq<string>)
    returns (chunks: seq<string>)
    requires ValidParams(size, overlap)
    ensures chunks == ChunksFrom(normalized, size, overlap, separators, 0)
  {
    chunks := [];
    var start := 0;
    while start < |normalized|
      invariant chunks + ChunksFrom(normalized, size, overlap, separators, start)
             == ChunksFrom(normalized, size, overlap, separators, 0)
      decreases |normalized| - start
    {
      var end := Min(start + size, |normalized|);
      var adjustedEnd := FindBoundary(normalized, start, end, size, separators);
      var chunk := Strip(normalized[start..adjustedEnd]);
      SplitStep(normalized, size, overlap, separators, start, adjustedEnd, chunks);
      ghost var before := chunks;
      if chunk != [] {
        chunks := chunks + [chunk];
      }
      assert chunks == before + Emit(chunk);
      if adjustedEnd >= |normalized| {
        break;
      }
      var next := Max(adjustedEnd - overlap, 0);
      if next <= start {
        break;
      }
      assert NextStart(adjustedEnd, overlap) == next;
      start := next;
    }
  }

  /** `chunk_text`: blank text gives no chunks; otherwise the clamped
      parameters drive the cursor loop over the normalised text. */
  method ChunkText(text: string, chunkSize: int, chunkOverlap: int, separators: seq<string>)
    returns (chunks: seq<string>)
    ensures chunks == Chunks(text, chunkSize, chunkOverlap, separators)
  {
    var normalized := NormalizeWhitespace(text);
    if normalized == [] {
      return [];
    }
    var size := EffectiveSize(chunkSize);
    var overlap := EffectiveOverlap(chunkOverlap, size);
    chunks := Split(normalized, size, overlap, separators);
  }

  // ---------------------------------------------------------------------
  // Properties of the chunks
  // ---------------------------------------------------------------------

  /** A chunk as chunk_text emits it: a non-empty run of the normalised text
      of at most `size` characters, with no whitespace at either end. */
  predicate WellFormedChunk(text: string, size: nat, chunk: string) {
    && chunk != [] && |chunk| <= size
    && !IsSpace(chunk[0]) && !IsSpace(chunk[|chunk| - 1])
    && exists lo :: 0 <= lo <= |text| && OccursAt(text, chunk, lo)
  }

  /** A run inside the slice text[start..end] is a run of the text itself. */
  lemma {:induction false} SliceOfSlice(text: string, start: nat, end: nat, w: string, a: nat, r: string)
    requires start <= end <= |text| && w == text[start..end]
    requires a + |r| <= |w| && r == w[a..a + |r|]
    ensures r == text[start + a..start + a + |r|]
  {
    assert forall k :: 0 <= k < |r| ==> r[k] == w[a + k];
  }

  /** The trimmed window text[start..ae] is a well-formed chunk unless it is blank. */
  lemma {:induction false} WindowChunk(text: string, size: nat, start: nat, ae: nat)
    requires start < ae <= |text| && ae - start <= size
    requires Strip(text[start..ae]) != []
    ensures WellFormedChunk(text, size, Strip(text[start..ae]))
  {
    var w := text[start..ae];
    ChunkAt(text, size, start, ae, w, Strip(w));
  }

  /** The stripped window r of w == text[start..ae] is a chunk once it is
      non-blank and the window fits. */
  lemma {:induction false} ChunkAt(text: string, size: nat, start: nat, ae: nat, w: string, r: string)
    requires start <= ae <= |text| && w == text[start..ae] && ae - start <= size
    requires StripStart(w) + |r| <= |w| && r == w[StripStart(w)..StripStart(w) + |r|]
    requires r == [] || (!IsSpace(r[0]) && !IsSpace(r[|r| - 1]))
    requires r != []
    ensures WellFormedChunk(text, size, r)
  {
    var a := StripStart(w);
    SliceOfSlice(text, start, ae, w, a, r);
    assert OccursAt(text, r, start + a);
  }

  /** Every chunk the loop emits is well formed. */
  lemma {:induction false} ChunksFromWellFormed(text: string, size: nat, overlap: nat, separators: seq<string>, start: nat)
    requires ValidParams(size, overlap)
    ensures forall chunk :: chunk in ChunksFrom(text, size, overlap, separators, start) ==> WellFormedChunk(text, size, chunk)
    decreases |text| - start
  {
    if start < |text| {
      var ae := Boundary(text, size, separators, start);
      var chunk := Strip(text[start..ae]);
      ChunksFromStep(text, size, overlap, separators, start, ae);
      if chunk != [] {
        WindowChunk(text, size, start, ae);
      }
      var next := NextStart(ae, overlap);
      if ae < |text| && next > start {
        ChunksFromWellFormed(text, size, overlap, separators, next);
      }
    }
  }

  /** The first pass over normalised text always emits a chunk, since the
      text does not begin with whitespace. */
  lemma {:induction false} FirstChunkEmitted(text: string, size: nat, overlap: nat, separators: seq<string>)
    requires ValidParams(size, overlap) && text != [] && IsNormalized(text)
    ensures ChunksFrom(text, size, overlap, separators, 0) != []
  {
    var ae := Boundary(text, size, separators, 0);
    var w := text[0..ae];
    assert w[0] == text[0];
    assert !AllSpace(w);
    ChunksFromStep(text, size, overlap, separators, 0, ae);
  }

  /** chunk_text returns no chunks exactly when the text is blank. */
  lemma {:induction false} ChunksEmptyIff(text: string, chunkSize: int, chunkOverlap: int, separators: seq<string>)
    ensures Chunks(text, chunkSize, chunkOverlap, separators) == [] <==> AllSpace(text)
  {
    var normalized := NormalizeWhitespace(text);
    if normalized != [] {
      var size := EffectiveSize(chunkSize);
      FirstChunkEmitted(normalized, size, EffectiveOverlap(chunkOverlap, size), separators);
    }
  }

  /** Every chunk of chunk_text is a trimmed, non-empty run of the normalised
      text no longer than the effective chunk size. */
  lemma {:induction false} ChunksWellFormed(text: string, chunkSize: int, chunkOverlap: int, separators: seq<string>)
    ensures forall chunk :: chunk in Chunks(text, chunkSize, chunkOverlap, separators) ==>
      WellFormedChunk(NormalizeWhitespace(text), EffectiveSize(chunkSize), chunk)
  {
    var size := EffectiveSize(chunkSize);
    ChunksFromWellFormed(NormalizeWhitespace(text), size, EffectiveOverlap(chunkOverlap, size), separators, 0);
  }

  /** Normalised text shorter than 0.6 * size is never cut: it comes back as
      the single chunk it is. (Text merely shorter than the chunk size can
      still be cut at a late separator.) */
  lemma {:induction false} ShortTextIsOneChunk(text: string, chunkSize: int, chunkOverlap: int, separators: seq<string>)
    requires NormalizeWhitespace(text) != []
    requires 10 * |NormalizeWhitespace(text)| < 6 * EffectiveSize(chunkSize)
    ensures Chunks(text, chunkSize, chunkOverlap, separators) == [NormalizeWhitespace(text)]
  {
    var n := NormalizeWhitespace(text);
    var size := EffectiveSize(chunkSize);
    var ae := Boundary(n, size, separators, 0);
    assert ae == |n|;
    assert n[0..ae] == n;
    StripUnchanged(n);
    ChunksFromStep(n, size, EffectiveOverlap(chunkOverlap, size), separators, 0, ae);
  }

  /** The cursor moves strictly forward exactly when the adjusted end minus
      the overlap lies past `start`, and that is always so when the overlap
      is below 0.6 * size. */
  lemma {:induction false} CursorAdvances(text: string, size: nat, overlap: nat, separators: seq<string>, start: nat)
    requires ValidParams(size, overlap) && start < |text|
    requires Boundary(text, size, separators, start) < |text|
    ensures var ae := Boundary(text, size, separators, start);
      NextStart(ae, overlap) > start <==> ae - overlap > start
    ensures 10 * overlap < 6 * size ==> NextStart(Boundary(text, size, separators, start), overlap) > start
  {
    var ae := Boundary(text, size, separators, start);
    if ae == Min(start + size, |text|) {
      assert ae == start + size;
    }
  }

  /** With an overlap below 0.6 * size the loop as written ends within
      |text| - start passes and agrees with the guarded loop. */
  lemma {:induction false} AsWrittenAgrees(text: string, size: nat, overlap: nat, separators: seq<string>, start: nat, fuel: nat)
    requires ValidParams(size, overlap) && 10 * overlap < 6 * size
    requires fuel >= |text| - start
    ensures RunAsWritten(text, size, overlap, separators, start, fuel)
         == Some(ChunksFrom(text, size, overlap, separators, start))
    decreases fuel
  {
    if start < |text| {
      var rest: nat := fuel - 1;
      var ae := Boundary(text, size, separators, start);
      if ae < |text| {
        CursorAdvances(text, size, overlap, separators, start);
        AsWrittenAgrees(text, size, overlap, separators, NextStart(ae, overlap), rest);
      }
      AgreeStep(text, size, overlap, separators, start, rest, ae);
      FuelShift(text, size, overlap, separators, start, fuel, rest);
    }
  }

  lemma {:induction false} FuelShift(text: string, size: nat, overlap: nat, separators: seq<string>,
                                     start: nat, fuel: nat, rest: nat)
    requires ValidParams(size, overlap) && fuel == rest + 1
    ensures RunAsWritten(text, size, overlap, separators, start, fuel)
         == RunAsWritten(text, size, overlap, separators, start, rest + 1)
  {
  }

  /** One pass of AsWrittenAgrees: where the guarded loop goes on, the loop
      as written goes on to the same cursor; where it stops, both stop. */
  lemma {:induction false} AgreeStep(text: string, size: nat, overlap: nat, separators: seq<string>,
                                     start: nat, rest: nat, ae: nat)
    requires ValidParams(size, overlap) && start < |text|
    requires ae == AdjustedEnd(text, start, Min(start + size, |text|), size, separators)
    requires ae < |text| ==> NextStart(ae, overlap) > start
    requires ae < |text| ==>
      RunAsWritten(text, size, overlap, separators, NextStart(ae, overlap), rest)
      == Some(ChunksFrom(text, size, overlap, separators, NextStart(ae, overlap)))
    ensures RunAsWritten(text, size, overlap, separators, start, rest + 1)
         == Some(ChunksFrom(text, size, overlap, separators, start))
  {
    ChunksFromStep(text, size, overlap, separators, start, ae);
    RunAsWrittenStep(text, size, overlap, separators, start, rest, ae);
  }

  /** chunk_text as written, on the raw text and parameters. */
  function ChunksAsWritten(text: string, chunkSize: int, chunkOverlap: int, separators: seq<string>, fuel: nat)
    : (r: Option<seq<string>>)
    ensures r.Some? ==> |r.value| <= fuel
  {
    var normalized := NormalizeWhitespace(text);
    var size := EffectiveSize(chunkSize);
    if normalized == [] then Some([])
    else RunAsWritten(normalized, size, EffectiveOverlap(chunkOverlap, size), separators, 0, fuel)
  }

  /** For every setting whose clamped overlap is below 0.6 * size (the
      defaults 800/150 among them) the loop as written terminates with
      the same chunks as the guarded loop. */
  lemma {:induction false} ChunksAsWrittenAgree(text: string, chunkSize: int, chunkOverlap: int, separators: seq<string>)
    requires 10 * EffectiveOverlap(chunkOverlap, EffectiveSize(chunkSize)) < 6 * EffectiveSize(chunkSize)
    ensures ChunksAsWritten(text, chunkSize, chunkOverlap, separators, |NormalizeWhitespace(text)|)
         == Some(Chunks(text, chunkSize, chunkOverlap, separators))
  {
    var size := EffectiveSize(chunkSize);
    var n := NormalizeWhitespace(text);
    if n != [] {
      AsWrittenAgrees(n, size, EffectiveOverlap(chunkOverlap, size), separators, 0, |n|);
    }
  }

  // ---------------------------------------------------------------------
  // The input on which the loop as written never ends
  // ---------------------------------------------------------------------

  function Repeat(c: char, n: nat): (r: string)
    ensures |r| == n && forall i :: 0 <= i < n ==> r[i] == c
  {
    if n == 0 then [] else [c] + Repeat(c, n - 1)
  }

  /** 398 letters, a space and two more letters: 401 characters. */
  predicate StallShape(t: string) {
    && |t| == 401
    && (forall i :: 0 <= i < 398 ==> t[i] == 'a')
    && t[398] == ' ' && t[399] == 'b' && t[400] == 'b'
  }

  /** Such a text exists: 'a' * 398 + " bb". */
  lemma {:induction false} StallShapeExists()
    ensures StallShape(Repeat('a', 398) + " bb")
  {
    var t := Repeat('a', 398) + " bb";
    assert forall i :: 0 <= i < 398 ==> t[i] == Repeat('a', 398)[i];
  }

  lemma {:induction false} StallShapeNormalized(t: string)
    requires StallShape(t)
    ensures IsNormalized(t)
  {
    assert forall i :: 0 <= i < |t| && IsSpace(t[i]) ==> i == 398;
  }

  /** No ". " anywhere in a window without a period. */
  lemma {:induction false} NoSentenceCut(w: string)
    requires forall i :: 0 <= i < |w| ==> w[i] != '.'
    ensures RFind(w, ". ") == -1
  {
    forall j | 0 <= j <= |w| - 2
      ensures !OccursAt(w, ". ", j)
    {
      assert w[j..j + 2][0] == w[j];
    }
  }

  /** The last space in the first window is at 398. */
  lemma {:induction false} StallLastSpace(t: string)
    requires StallShape(t)
    ensures RFind(t[0..400], " ") == 398
  {
    var w := t[0..400];
    assert OccursAt(w, " ", 398) by {
      assert w[398..399][0] == w[398];
      assert w[398..399] == " ";
    }
    assert !OccursAt(w, " ", 399) by {
      assert w[399..400][0] == w[399];
    }
    RFindLast(w, " ", 398);
  }

  /** Of the default separators only " " is found in the first window,
      at 398. */
  lemma {:induction false} StallCuts(t: string)
    requires StallShape(t)
    ensures CutAt(t, 0, 400, "\n\n").None? && CutAt(t, 0, 400, "\n").None?
    ensures CutAt(t, 0, 400, ". ").None?
    ensures CutAt(t, 0, 400, " ") == Some(398)
  {
    StallShapeNormalized(t);
    NewlineSeparatorsNeverCut(t, 0, 400);
    StallNoSentenceCut(t);
    StallSpaceCut(t);
  }

  lemma {:induction false} StallNoSentenceCut(t: string)
    requires StallShape(t)
    ensures CutAt(t, 0, 400, ". ").None?
  {
    var w := t[0..400];
    forall i | 0 <= i < |w|
      ensures w[i] != '.'
    {
      assert w[i] == t[i];
    }
    NoSentenceCut(w);
  }

  lemma {:induction false} StallSpaceCut(t: string)
    requires StallShape(t)
    ensures CutAt(t, 0, 400, " ") == Some(398)
  {
    StallLastSpace(t);
    StrippedSpaceSeparator();
  }

  /** In the first window the cut after the last space qualifies
      (398 >= 0.6 * 400): the chunk ends at 398. */
  lemma {:induction false} StallBoundary(t: string)
    requires StallShape(t)
    ensures Boundary(t, 400, DefaultSeparators, 0) == 398
  {
    StallCuts(t);
    var s0: seq<string> := DefaultSeparators;
    var s1: seq<string> := ["\n", ". ", " ", ""];
    var s2: seq<string> := [". ", " ", ""];
    var s3: seq<string> := [" ", ""];
    assert s0[1..] == s1 && s1[1..] == s2 && s2[1..] == s3;
    assert AdjustedEnd(t, 0, 400, 400, s3) == 398;
    assert AdjustedEnd(t, 0, 400, 400, s2) == 398;
    assert AdjustedEnd(t, 0, 400, 400, s1) == 398;
  }

  /** From cursor 0 the loop as written on such a text with size 400 and
      overlap 399 comes back to cursor 0, whatever the fuel. */
  lemma {:induction false} StallRunsForever(t: string, fuel: nat)
    requires StallShape(t)
    ensures RunAsWritten(t, 400, 399, DefaultSeparators, 0, fuel) == None
    decreases fuel
  {
    if fuel > 0 {
      var rest: nat := fuel - 1;
      StallBoundary(t);
      RunAsWrittenStep(t, 400, 399, DefaultSeparators, 0, rest, 398);
      assert NextStart(398, 399) == 0;
      StallRunsForever(t, rest);
    }
  }

  /** chunk_text as written never returns on such a text with chunk_size
      400 and chunk_overlap 400 (clamped to 399), a setting the interface
      offers; the guarded loop stops after the first chunk. */
  lemma {:induction false} ChunkTextStalls(t: string, fuel: nat)
    requires StallShape(t)
    ensures ChunksAsWritten(t, 400, 400, DefaultSeparators, fuel) == None
    ensures Chunks(t, 400, 400, DefaultSeparators) == [t[..398]]
  {
    StallShapeNormalized(t);
    NormalizeFixesNormalized(t);
    assert EffectiveSize(400) == 400 && EffectiveOverlap(400, 400) == 399;
    StallRunsForever(t, fuel);
    StallBoundary(t);
    ChunksFromStep(t, 400, 399, DefaultSeparators, 0, 398);
    assert t[0..398] == t[..398];
    StripUnchanged(t[..398]);
  }

  // ---------------------------------------------------------------------
  // chunk_text_with_metadata
  // ---------------------------------------------------------------------

  /** The chunking settings (eduweave/config.py, ChunkConfig). */
  datatype ChunkConfig = ChunkConfig(chunkSize: int, chunkOverlap: int, separators: seq<string>)

  const DefaultChunkConfig: ChunkConfig := ChunkConfig(800, 150, DefaultSeparators)

  /** `source or "document"`: a missing or empty source name falls back. */
  function SourceName(source: Option<string>): (name: string)
    ensures name != []
    ensures source.Some? && source.value != [] ==> name == source.value
    ensures !(source.Some? && source.value != []) ==> name == "document"
  {
    if source.Some? && source.value != [] then source.value else "document"
  }

  /** The metadata dictionary of the chunk at `index`. */
  function ChunkMetadata(source: Option<string>, index: nat, chunk: string): (m: Metadata)
    ensures m.Keys == {"source", "chunk_index", "char_length"}
    ensures m["source"] == Text(SourceName(source)) && m["source"].s != []
    ensures m["chunk_index"] == Number(index)
    ensures m["char_length"] == Number(|chunk|)
  {
    map["source" := Text(SourceName(source)), "chunk_index" := Number(index), "char_length" := Number(|chunk|)]
  }

  /** One metadata dictionary per chunk, in order. */
  function MetadataFor(source: Option<string>, chunks: seq<string>): (r: seq<Metadata>)
    ensures |r| == |chunks|
    ensures forall i :: 0 <= i < |r| ==> r[i] == ChunkMetadata(source, i, chunks[i])
  {
    seq(|chunks|, i requires 0 <= i < |chunks| => ChunkMetadata(source, i, chunks[i]))
  }

  /** Lines 64-80: the chunks with their metadata. */
  method ChunkTextWithMetadata(text: string, config: ChunkConfig, source: Option<string>)
    returns (chunks: seq<string>, metadata: seq<Metadata>)
    ensures chunks == Chunks(text, config.chunkSize, config.chunkOverlap, config.separators)
    ensures metadata == MetadataFor(source, chunks)
  {
    chunks := ChunkText(text, config.chunkSize, config.chunkOverlap, config.separators);
    metadata := MetadataFor(source, chunks);
  }

  /** Each metadata entry names the source (or "document"), the chunk's
      position and the chunk's length, which lies between 1 and the
      effective chunk size. */
  lemma {:induction false} MetadataDescribesChunks(text: string, config: ChunkConfig, source: Option<string>)
    ensures var chunks := Chunks(text, config.chunkSize, config.chunkOverlap, config.separators);
      var metadata := MetadataFor(source, chunks);
      forall i :: 0 <= i < |metadata| ==>
        && metadata[i]["source"] == Text(SourceName(source)) && metadata[i]["source"].s != []
        && metadata[i]["chunk_index"] == Number(i)
        && metadata[i]["char_length"] == Number(|chunks[i]|)
        && 1 <= metadata[i]["char_length"].n <= EffectiveSize(config.chunkSize)
  {
    var chunks := Chunks(text, config.chunkSize, config.chunkOverlap, config.separators);
    var metadata := MetadataFor(source, chunks);
    var size := EffectiveSize(config.chunkSize);
    ChunksWellFormed(text, config.chunkSize, config.chunkOverlap, config.separators);
    forall i | 0 <= i < |metadata|
      ensures 1 <= |chunks[i]| <= size
    {
      assert chunks[i] in chunks;
    }
  }
}
