# EduWeave text preparation and retrieval bookkeeping, in Dafny

EduWeave is a study assistant for PDFs. It cleans the page text of uploaded
documents and cuts it into overlapping chunks. It embeds the chunks into an
in-memory vector index, then answers questions over that index
(retrieval-augmented generation), or writes summaries and multiple-choice
questions from the raw corpus. This project models the deterministic part of
that pipeline and proves properties of it. Everything that talks to a model,
the PDF library or the UI is a parameter of the model.

Modules, one per source file:

- `Common`: the Python string and list behaviour the others rely on:
  - `str.isspace` / `\s`, `str.strip` and `str.join`;
  - list indexing with negative indices, slicing with `[:n]`;
  - `str(int)`;
  - the generation settings of `eduweave/config.py`.
- `TextProcessing` (`eduweave/text_processing.py`):
  - whitespace normalisation;
  - the sliding-window chunker, as a `method` with the cursor loop and the separator loop;
  - chunk metadata.
- `PdfUtils` (`eduweave/pdf_utils.py`): `clean_text` as its chain of four rewrites plus `strip`, and `combine_texts`.
- `VectorStore` (`eduweave/vector_store.py`):
  - the `VectorStoreManager` class, with the fields that `build` assigns;
  - batch slicing of the embedding loop;
  - `is_ready`;
  - the mapping of raw index answers back to hits in `search`.
- `Rag` (`eduweave/rag.py`):
  - the role-tagged fallback prompt of `_chat_completion`;
  - `_format_context`;
  - the control flow of `answer_question`.
- `Generation` (`eduweave/generation.py`): `_clean_context`, the empty-context guards and result shaping of `generate_summary` and `generate_mcqs`.

Modelling conventions:
- `None` for a string argument (`text or ""`) is modelled as the empty string.
- Integers are unbounded. The 0.6·chunk_size test is stated in integers as `10 * (cut - start) >= 6 * size`. The exact value 0.6·size is a multiple of 0.2, and the rounding error of the float product `size * 0.6` is tiny compared with the gap between such a multiple and the next integer; when 0.6·size is itself an integer, the product rounds to it exactly for any realistic size. So the integer test agrees with the float one. This argument is not part of the proofs.
- The external services are function parameters:
  - the embedder is `string -> Vector`, one vector per text;
  - FAISS search is `(FlatIndex, Vector, int) -> seq<Neighbor>`, its (index, distance) pairs, with integer distances;
  - the chat service is `seq<Message> -> Option<string>`;
  - text generation is `string -> string`;
  - `textwrap.shorten` is `(string, int) -> string`;
  - `json.loads` is `string -> Option<Json>`.
- Exceptions become `Result` values: `ValueError`, `RuntimeError`, and `IndexError` from a metadata list shorter than the chunk list.

Places where the code does less than a reader might expect; the model follows the code:
- **Chunker termination.** Nothing in the chunking loop checks that the new cursor moved forward, and the loop can run forever. A chunker is evidently meant to stop when the cursor would not advance. See "## Findings".
- **Out-of-range indices in search.** The code skips only `-1` and indices `>= len(text_chunks)`. A metadata list shorter than the chunk list makes `self.metadatas[idx]` raise. Other negative indices count from the end, as Python lists do (`VectorStore.HitFor`, `Common.PyGet`).
- **Query dimension.** Nothing checks that the query vector has the dimension of the index, and neither does the model.
- **Answer filter.** The answer is the generator's text as it is, apart from `strip()` inside `_chat_completion`. No other filtering happens and none is modelled.

## Model

| member | source | states |
|---|---|---|
| Common.Strip | eduweave/text_processing.py:12 | `str.strip()`: the result is a contiguous slice of the input with no whitespace at either end |
| Common.StripEmptyIff | eduweave/text_processing.py:50-52 | the stripped string is empty exactly when the input is all whitespace |
| Common.StripUnchanged | eduweave/pdf_utils.py:20 | stripping a string that already has non-space ends changes nothing |
| Common.StripKeepsContent | eduweave/pdf_utils.py:20 | stripping removes only whitespace: the non-space characters, in order, are unchanged |
| Common.StripIsMiddle | eduweave/text_processing.py:50 | the stripped string is the input with leading and trailing whitespace removed, `s[a..b]` for some a ≤ b |
| Common.StripAround | eduweave/text_processing.py:12 | stripping x + " " + y, with x not ending and y not starting with whitespace, gives strip(x) + " " + strip(y) |
| Common.Join | eduweave/pdf_utils.py:42 | `sep.join`: no parts give "", a single part is returned as it is |
| Common.JoinEmptyIff | eduweave/rag.py:67 | with a non-empty separator the join is empty iff there are no parts or one empty part |
| Common.PyGet | eduweave/vector_store.py:87-88 | Python list indexing: a non-negative index below the length, or a negative one counting from the end, gives that element; anything else gives None (IndexError) |
| Common.PyPrefix | eduweave/generation.py:15 | `s[:n]`: a prefix of length min(n, len) for n ≥ 0, and of length max(len + n, 0) for n < 0 |
| Common.NatToString | eduweave/rag.py:65 | `str(n)` for n ≥ 0: a non-empty string of decimal digits without a leading zero |
| Common.NatToStringRoundTrip | eduweave/rag.py:65 | reading the digits of `str(n)` back gives n |
| Common.IntToString | eduweave/generation.py:56 | `str(n)`: non-empty, starting with '-' exactly when n is negative |
| TextProcessing.CollapseRuns | eduweave/text_processing.py:12 | `re.sub(r"\s+", " ", …)`: empty iff the input is; first character whitespace iff the input's is; ' ' is the only whitespace and never twice in a row; the non-space characters are unchanged. CollapseRunsSplit states that each run becomes exactly one ' ' |
| TextProcessing.NormalizeWhitespace | eduweave/text_processing.py:11-12 | `_normalize_whitespace`: normalised (no whitespace at the ends, none but ' ', no two in a row), same non-space characters, empty exactly for all-whitespace input. NormalizeSplit states that words on either side of a whitespace run stay separated by one ' ' |
| TextProcessing.NormalizeFacts | eduweave/text_processing.py:11-12 | the three facts above proved about strip-after-collapse |
| TextProcessing.StripKeepsShape | eduweave/text_processing.py:12 | stripping a collapsed string yields a normalised string |
| TextProcessing.CollapseRunsUnchanged | eduweave/text_processing.py:12 | collapsing a string whose whitespace is single spaces changes nothing |
| TextProcessing.NormalizeFixesNormalized | eduweave/text_processing.py:11-12 | normalised text is a fixed point of `_normalize_whitespace` |
| TextProcessing.NormalizeIdempotent | eduweave/text_processing.py:11-12 | normalising twice equals normalising once |
| TextProcessing.NormalizedHasNoNewline | eduweave/text_processing.py:11-12 | normalised text holds no '\n' |
| TextProcessing.CollapseRunsAppend | eduweave/text_processing.py:12 | collapsing a + t is collapsing a and t separately when a does not end in whitespace |
| TextProcessing.CollapseRunsRun | eduweave/text_processing.py:12 | a non-empty whitespace run before text that does not start with whitespace becomes exactly one ' ' |
| TextProcessing.CollapseRunsSplit | eduweave/text_processing.py:12 | for a not ending and b not starting with whitespace and w a non-empty whitespace run, collapsing a + w + b gives collapse(a) + " " + collapse(b) |
| TextProcessing.CollapseRunsLast | eduweave/text_processing.py:12 | collapsing keeps a last character that is not whitespace |
| TextProcessing.NormalizeSplit | eduweave/text_processing.py:11-12 | for non-empty a not ending and b not starting with whitespace, and a whitespace run w, normalising a + w + b gives normalise(a) + " " + normalise(b) |
| TextProcessing.RFindFrom | eduweave/text_processing.py:42 | the last occurrence of `sep` starting at or before `i`, or -1 when there is none |
| TextProcessing.RFind | eduweave/text_processing.py:42 | `window.rfind(sep)`: -1 or an occurrence with no occurrence after it |
| TextProcessing.RFindLast | eduweave/text_processing.py:42 | every occurrence lies at or before the one rfind returns |
| TextProcessing.OccursAtChars | eduweave/text_processing.py:42 | an occurrence matches the separator character by character |
| TextProcessing.CutAt | eduweave/text_processing.py:40-45 | an empty separator or one missing from the window gives no cut; otherwise the cut `start + idx + len(sep.strip())` lies in the window |
| TextProcessing.AdjustedEnd | eduweave/text_processing.py:38-48 | the adjusted end lies in [start, end] and is either `end` or at least 0.6·chunk_size past `start` |
| TextProcessing.AdjustedEndIsFirstQualifying | eduweave/text_processing.py:39-48 | when separator k is the first in order whose cut qualifies, the adjusted end is that cut |
| TextProcessing.AdjustedEndFallsBack | eduweave/text_processing.py:38 | when no separator qualifies, the adjusted end is the window end |
| TextProcessing.StrippedDefaultSeparators | eduweave/text_processing.py:45 | `". ".strip()` is "." and `" ".strip()` is "", so a sentence cut keeps the period and a space cut drops the space |
| TextProcessing.SentenceCutKeepsPeriod | eduweave/text_processing.py:45 | a `". "` cut lands strictly inside the window, just after a '.' and before the space |
| TextProcessing.NewlineSeparatorsNeverCut | eduweave/text_processing.py:19-24 | on normalised text the "\n\n" and "\n" separators never produce a cut |
| TextProcessing.EffectiveSize | eduweave/text_processing.py:26 | `max(chunk_size, 200)`: at least 200, and the given size when that is already ≥ 200 |
| TextProcessing.EffectiveOverlap | eduweave/text_processing.py:27 | the clamped overlap lies in [0, size-1] and is the given overlap when that is already in range |
| TextProcessing.Boundary | eduweave/text_processing.py:34-48 | the chunk end lies strictly after `start`, at most `start + size` and the text length, and is the window end or at least 0.6·size past `start` |
| TextProcessing.RunAsWritten | eduweave/text_processing.py:50-59 | the cursor loop exactly as written, run for at most `fuel` passes; when it finishes, it has emitted at most one chunk per pass |
| TextProcessing.ChunksFrom | eduweave/text_processing.py:50-59 | the cursor loop with a progress guard: no chunks from a cursor at or past the end of the text, and otherwise at most one chunk per remaining character |
| TextProcessing.RunAsWrittenStep | eduweave/text_processing.py:50-59 | one pass of the loop as written: emit the trimmed slice, stop at the end of text, otherwise continue from `max(ae - overlap, 0)` |
| TextProcessing.ChunksFromStep | eduweave/text_processing.py:50-59 | one pass of the corrected loop, which also stops when the new cursor does not pass the old one |
| TextProcessing.Chunks | eduweave/text_processing.py:15-61 | `chunk_text` with the corrected loop: never more chunks than characters of the normalised text |
| TextProcessing.FindBoundary | eduweave/text_processing.py:38-48 | the separator loop with its `continue`s and `break` computes exactly AdjustedEnd |
| TextProcessing.Split | eduweave/text_processing.py:29-59 | the cursor loop computes exactly the corrected chunk list ChunksFrom |
| TextProcessing.ChunkText | eduweave/text_processing.py:15-61 | `chunk_text` returns exactly Chunks: [] for blank text, else the cursor loop over the normalised text with clamped parameters |
| TextProcessing.WindowChunk | eduweave/text_processing.py:50-52 | a non-empty trimmed slice of a window is a well-formed chunk: non-empty, at most `size` long, equal to `text[a..b].strip()` inside the text |
| TextProcessing.ChunksFromWellFormed | eduweave/text_processing.py:33-52 | every chunk the loop emits is well formed |
| TextProcessing.ChunksWellFormed | eduweave/text_processing.py:33-52 | every chunk of `chunk_text` is a non-empty stripped slice of the normalised text, no longer than the effective chunk size |
| TextProcessing.FirstChunkEmitted | eduweave/text_processing.py:33-52 | on non-empty normalised text the first pass emits a chunk |
| TextProcessing.ChunksEmptyIff | eduweave/text_processing.py:22-24 | `chunk_text` returns [] exactly when the input is empty or all whitespace |
| TextProcessing.ShortTextIsOneChunk | eduweave/text_processing.py:33-55 | normalised text shorter than 0.6·chunk_size yields exactly [normalised text] |
| TextProcessing.CursorAdvances | eduweave/text_processing.py:57 | the cursor moves forward iff `adjusted_end - overlap > start`, which always holds when overlap < 0.6·size |
| TextProcessing.AsWrittenAgrees | eduweave/text_processing.py:33-59 | when overlap < 0.6·size the loop as written terminates within |text| passes and agrees with the corrected loop |
| TextProcessing.ChunksAsWritten | eduweave/text_processing.py:15-61 | `chunk_text` with the loop as written, for at most `fuel` passes; when it finishes, it has at most `fuel` chunks |
| TextProcessing.ChunksAsWrittenAgree | eduweave/text_processing.py:15-61 | the same at the level of `chunk_text`, for the clamped parameters |
| TextProcessing.Repeat | eduweave/text_processing.py:54-59 | n copies of one character, used to build the stalling input |
| TextProcessing.StallShapeExists | eduweave/text_processing.py:54-59 | 'a'·398 + " bb" has the stalling shape |
| TextProcessing.StallShapeNormalized | eduweave/text_processing.py:22 | the stalling input is already normalised |
| TextProcessing.NoSentenceCut | eduweave/text_processing.py:42 | a window without '.' has no `". "` occurrence |
| TextProcessing.StallLastSpace | eduweave/text_processing.py:42 | in the first 400-character window of the stalling input the last space is at 398 |
| TextProcessing.StallCuts | eduweave/text_processing.py:39-48 | there the newline and sentence separators give no cut and the space gives the cut 398 |
| TextProcessing.StallNoSentenceCut | eduweave/text_processing.py:39-48 | the sentence separator gives no cut on the stalling window |
| TextProcessing.StallSpaceCut | eduweave/text_processing.py:45 | the space separator cuts the stalling window at 398 |
| TextProcessing.StallBoundary | eduweave/text_processing.py:38-48 | with size 400 and the default separators the first chunk ends at 398 |
| TextProcessing.StallRunsForever | eduweave/text_processing.py:54-59 | with size 400 and overlap 399 the loop as written never finishes, for any number of passes |
| TextProcessing.ChunkTextStalls | eduweave/text_processing.py:15-61 | `chunk_text(t, 400, 400)` as written never returns, while the corrected loop returns [t[:398]] |
| TextProcessing.SourceName | eduweave/text_processing.py:74 | `source or "document"`: never empty; the given name when it is non-empty, and "document" otherwise |
| TextProcessing.ChunkMetadata | eduweave/text_processing.py:74-78 | one metadata entry has exactly the keys `source`, `chunk_index` and `char_length`, with `source` the SourceName, `chunk_index == index` and `char_length == len(chunk)` |
| TextProcessing.MetadataFor | eduweave/text_processing.py:72-79 | one metadata entry per chunk, the i-th describing chunk i |
| TextProcessing.ChunkTextWithMetadata | eduweave/text_processing.py:64-80 | returns the chunks of `chunk_text` with the settings' size, overlap and separators, and their metadata |
| TextProcessing.MetadataDescribesChunks | eduweave/text_processing.py:72-79 | entry i has `source` equal to SourceName (non-empty), `chunk_index == i` and `char_length == len(chunks[i])`, which lies between 1 and the effective chunk size |
| PdfUtils.ReplaceNul | eduweave/pdf_utils.py:16 | same length, no NUL left, every NUL replaced by ' ' and every other character kept |
| PdfUtils.NormalizeNewlines | eduweave/pdf_utils.py:17 | `re.sub(r"\r\n?", "\n", …)`: never longer than its input |
| PdfUtils.NormalizeNewlinesFacts | eduweave/pdf_utils.py:17 | after `\r\n?` → `\n` no '\r' is left, no NUL appears, and the non-space characters are unchanged; NormalizeNewlinesCrLf and NormalizeNewlinesLoneCr state what replaces each CR |
| PdfUtils.NormalizeNewlinesUnchanged | eduweave/pdf_utils.py:17 | text without '\r' is unchanged |
| PdfUtils.NormalizeNewlinesHead | eduweave/pdf_utils.py:17 | one step of the rewrite: a leading CR, with the LF after it if any, becomes one '\n'; any other character is kept |
| PdfUtils.NormalizeNewlinesAppend | eduweave/pdf_utils.py:17 | rewriting a + t is rewriting a and t separately when a does not end in '\r' |
| PdfUtils.NormalizeNewlinesCrLf | eduweave/pdf_utils.py:17 | a CR LF pair becomes exactly one '\n': rewriting a + "\r\n" + b gives rewrite(a) + "\n" + rewrite(b) |
| PdfUtils.NormalizeNewlinesLoneCr | eduweave/pdf_utils.py:17 | a CR not followed by LF becomes exactly one '\n': rewriting a + "\r" + b gives rewrite(a) + "\n" + rewrite(b) |
| PdfUtils.CollapseBlanks | eduweave/pdf_utils.py:18 | `re.sub(r"[ \t]+", " ", …)`: never longer than its input |
| PdfUtils.CollapseBlanksFacts | eduweave/pdf_utils.py:18 | after `[ \t]+` → ' ': empty iff the input is; starts with ' ' iff the input starts with a blank; no tab; no two spaces in a row; no NUL or '\r' introduced; same non-space characters; CollapseBlanksSplit states that each run becomes one ' ' |
| PdfUtils.CollapseBlanksUnchanged | eduweave/pdf_utils.py:18 | text without tabs or double spaces is unchanged |
| PdfUtils.CollapseBlanksAppend | eduweave/pdf_utils.py:18 | rewriting a + t is rewriting a and t separately when a does not end in a space or tab |
| PdfUtils.CollapseBlanksRun | eduweave/pdf_utils.py:18 | a non-empty run of spaces and tabs before text that does not start with one becomes exactly one ' ' |
| PdfUtils.CollapseBlanksSplit | eduweave/pdf_utils.py:18 | for a not ending and b not starting with a blank and w a non-empty run of blanks, rewriting a + w + b gives rewrite(a) + " " + rewrite(b) |
| PdfUtils.CapNewlines | eduweave/pdf_utils.py:19 | `re.sub(r"\n{3,}", "\n\n", …)`: never longer than its input |
| PdfUtils.CapNewlinesShape | eduweave/pdf_utils.py:19 | after `\n{3,}` → "\n\n": the first character is kept, a leading "\n\n" comes from one, and no run of three newlines is left; CapNewlinesSplit states what each run becomes |
| PdfUtils.CapNewlinesKeeps | eduweave/pdf_utils.py:19 | the newline cap introduces no double space, NUL, '\r' or tab, and keeps the non-space characters |
| PdfUtils.CapNewlinesUnchanged | eduweave/pdf_utils.py:19 | text without three newlines in a row is unchanged |
| PdfUtils.CapNewlinesAppend | eduweave/pdf_utils.py:19 | rewriting a + t is rewriting a and t separately when a does not end in '\n' |
| PdfUtils.CapNewlinesRun | eduweave/pdf_utils.py:19 | a run of line breaks before text that does not start with one: three or more become exactly "\n\n", one or two are kept |
| PdfUtils.CapNewlinesSplit | eduweave/pdf_utils.py:19 | for a not ending and b not starting with '\n' and w a non-empty run of line breaks, rewriting a + w + b gives rewrite(a) + ("\n\n" if the run has three or more, else w) + rewrite(b) |
| PdfUtils.RewrittenFacts | eduweave/pdf_utils.py:16-19 | after the four rewrites: no NUL, '\r' or tab; no double space; no three newlines; same non-space characters as the NUL-replaced input |
| PdfUtils.CleanText | eduweave/pdf_utils.py:12-20 | `clean_text`: "" for empty input, else the four rewrites then `strip()`; never longer than its input (its other properties are the lemmas below) |
| PdfUtils.CleanTextIsClean | eduweave/pdf_utils.py:12-20 | `clean_text("")` is ""; the output of `clean_text` has no NUL, '\r' or tab, no double space, no three newlines, and no whitespace at either end |
| PdfUtils.StripKeepsClean | eduweave/pdf_utils.py:20 | stripping keeps all those character-level facts and removes the whitespace at the ends |
| PdfUtils.SliceLacks | eduweave/pdf_utils.py:20 | a slice of a string lacking a character lacks it too |
| PdfUtils.SliceKeepsRuns | eduweave/pdf_utils.py:20 | a slice keeps "no double space" and "no three newlines" |
| PdfUtils.CleanTextKeepsContent | eduweave/pdf_utils.py:12-20 | cleaning only rewrites whitespace: the non-space characters are those of the input with NULs turned into spaces |
| PdfUtils.CleanTextFixesClean | eduweave/pdf_utils.py:12-20 | a clean string is a fixed point of `clean_text` |
| PdfUtils.CleanTextIdempotent | eduweave/pdf_utils.py:12-20 | `clean_text(clean_text(s)) == clean_text(s)` |
| PdfUtils.CleanedPages | eduweave/pdf_utils.py:41-42 | the kept pages are at most as many as the inputs, and each is non-empty and clean |
| PdfUtils.CleanedPagesOne | eduweave/pdf_utils.py:41-42 | a single text contributes its cleaned form, or nothing when the input or its cleaned form is empty |
| PdfUtils.CleanedPagesAppend | eduweave/pdf_utils.py:41-42 | the pages of a concatenation are those of each part, in input order |
| PdfUtils.CombineTextsSmall | eduweave/pdf_utils.py:39-42 | `combine_texts([])` is "" and `combine_texts([t])` is `clean_text(t)` |
| PdfUtils.CombineTexts | eduweave/pdf_utils.py:39-42 | `combine_texts`: the cleaned non-empty pages joined by a blank line; the corpus is itself clean |
| PdfUtils.PagesEmptyIff | eduweave/pdf_utils.py:41-42 | no page is kept exactly when every input cleans to "" |
| PdfUtils.CombineTextsEmptyIff | eduweave/pdf_utils.py:39-42 | the corpus is "" exactly when every input cleans to "" |
| PdfUtils.ParagraphJoinClean | eduweave/pdf_utils.py:42 | two clean non-empty pages joined by a blank line give a clean string |
| PdfUtils.JoinPagesClean | eduweave/pdf_utils.py:42 | clean non-empty pages joined by "\n\n" give a clean string, non-empty when there are pages |
| PdfUtils.CombineTextsClean | eduweave/pdf_utils.py:39-42 | the combined corpus is itself clean, so cleaning it again changes nothing |
| VectorStore.EmbedAll | eduweave/vector_store.py:44-52 | one vector per text, the i-th being the embedding of text i |
| VectorStore.EmbedAllAppend | eduweave/vector_store.py:59-64 | embedding a concatenation is concatenating the embeddings |
| VectorStore.FlattenAppend | eduweave/vector_store.py:64 | stacking two lists of batches stacks their rows in order |
| VectorStore.EmbedBatches | eduweave/vector_store.py:60-62 | one embedding matrix per batch |
| VectorStore.BatchesFrom | eduweave/vector_store.py:60-61 | the batches `texts[start:start + batch_size]` for `start` from `from` in steps of the batch size; its properties are BatchesCover, BatchesAreSlices, BatchCount and BatchesStep |
| VectorStore.BatchesCover | eduweave/vector_store.py:60-61 | the batches `texts[start:start+batch_size]` concatenate to the texts from `from` on |
| VectorStore.BatchesAreSlices | eduweave/vector_store.py:60-61 | batch j is `texts[from + j·size : min(from + (j+1)·size, n)]`, with 1 to size texts |
| VectorStore.BatchCount | eduweave/vector_store.py:60 | the number c of batches is ceil((n - from)/size): (c-1)·size < n - from ≤ c·size |
| VectorStore.BatchesStep | eduweave/vector_store.py:60-61 | the batch list is the first slice followed by the batches from `from + size` |
| VectorStore.StackedBatches | eduweave/vector_store.py:59-64 | `np.vstack` of the batch embeddings equals embedding every text at once |
| VectorStore.EmbedInBatches | eduweave/vector_store.py:59-64 | the batching loop yields exactly the matrix of one embedding per text, in order |
| VectorStore.MetadatasOr | eduweave/vector_store.py:70 | `metadatas or [{} for _ in texts]`: the argument when non-empty, else one empty map per text |
| VectorStore.Kept | eduweave/vector_store.py:82-84 | the raw entries that survive the `-1` and out-of-range skip, none of them skipped |
| VectorStore.MapHitsMeaning | eduweave/vector_store.py:81-92 | the hit loop succeeds iff every kept entry resolves in both lists; then the hits correspond one to one, in order, to the kept entries, with that entry's text, metadata and distance |
| VectorStore.HitFor | eduweave/vector_store.py:85-91 | one kept index answer resolves iff its index is valid Python indexing for both the chunk and the metadata list; the hit then carries that chunk, that metadata and the answer's distance |
| VectorStore.MapHits | eduweave/vector_store.py:81-92 | the hit loop, failing at the first entry that does not resolve; it never gives more hits than raw index answers |
| VectorStore.AllSkippedNoHits | eduweave/vector_store.py:83-84 | when every raw entry is skipped, the result is no hits rather than an error |
| VectorStore.ConsistentStoreNeverFails | eduweave/vector_store.py:81-92 | with as many metadatas as chunks and no index below -1, the hit loop never raises |
| VectorStore.VectorStoreManager.constructor | eduweave/vector_store.py:26-36 | a fresh store has the given batch size, no texts, no metadata, empty full text, no index, and is not ready |
| VectorStore.VectorStoreManager.Build | eduweave/vector_store.py:54-71 | empty texts give ValueError and change nothing; on success the index holds one vector per text with the first vector's dimension, `text_chunks == texts`, metadatas as MetadatasOr, `full_text == " ".join(texts)`, and the store is ready |
| VectorStore.VectorStoreManager.IsReady | eduweave/vector_store.py:73-74 | `is_ready`: an index is present and there is at least one chunk; the constructor makes it false and a successful Build makes it true |
| VectorStore.VectorStoreManager.Search | eduweave/vector_store.py:76-92 | RuntimeError when not ready; otherwise exactly the hit mapping of the index answer for the embedded query, with no more hits than the index returned, and so no more than `top_k` whenever the index returns at most k pairs for every k ≥ 0 |
| Rag.Turn | eduweave/rag.py:48 | one rendered message: the role tag around the role, a newline, the stripped content and a newline; TurnShape states its shape |
| Rag.TurnShape | eduweave/rag.py:48 | one rendered turn opens with the role tag holding the message's role and ends with a newline |
| Rag.TurnTexts | eduweave/rag.py:46-48 | one rendered turn per message, the i-th rendering message i |
| Rag.TurnsAppend | eduweave/rag.py:46-48 | rendering a concatenation of messages is concatenating their renderings |
| Rag.RenderPrompt | eduweave/rag.py:45-49 | the `prompt +=` loop builds exactly one role tag, newline, stripped content and newline per message in order, then the assistant tag and a newline |
| Rag.PromptFor | eduweave/rag.py:45-49 | the fallback prompt: every message's turn in order, then the assistant tag and a newline; PromptShape states its shape |
| Rag.PromptShape | eduweave/rag.py:45-49 | the prompt of a concatenation is both renderings followed by the assistant tag, and always ends with the assistant tag and a newline |
| Rag.ChatCompletion | eduweave/rag.py:28-58 | the stripped chat reply when the chat service gives non-empty text, else the stripped text-generation reply to the fallback prompt; the answer never has whitespace at either end |
| Rag.Label | eduweave/rag.py:64-65 | the label is the hit's `source` metadata when present, else "chunk-i" |
| Rag.Block | eduweave/rag.py:66 | a block is '[', the label, "] " and the hit's text, each at its stated position |
| Rag.Blocks | eduweave/rag.py:63-66 | one block per hit, in order, numbered from 1 |
| Rag.FormatContext | eduweave/rag.py:61-67 | the formatting loop yields exactly the blocks joined by "\n\n" |
| Rag.FormatContextEmptyIff | eduweave/rag.py:61-67 | the context is "" exactly when there are no hits |
| Rag.ContextOrEmpty | eduweave/rag.py:91-92 | an empty context becomes "Context is empty."; any other context is kept; the result is never empty |
| Rag.UserPrompt | eduweave/rag.py:94-98 | the user prompt starts with "Context:\n", carries the whole context right after it, and carries the whole question after the "\n\nQuestion: " line that follows the context |
| Rag.MessagesFor | eduweave/rag.py:94-103 | exactly two messages: the system prompt, then the user prompt over the (possibly replaced) context and the question |
| Rag.AnswerPrompt | eduweave/rag.py:45-49 | the fallback prompt for an answer is the system turn, the user turn and the assistant tag |
| Rag.SystemTurn | eduweave/rag.py:23-25 | the system turn is the system tag, the system prompt unchanged, and a newline |
| Rag.TurnsOfTwo | eduweave/rag.py:46-48 | two messages render as their two turns |
| Rag.SystemPromptStripped | eduweave/rag.py:23-25 | the system prompt is already stripped, so its turn carries it unchanged |
| Rag.NoHitsMeansEmptyContext | eduweave/rag.py:91-92 | zero hits give the user prompt over "Context is empty." |
| Rag.AnswerQuestion | eduweave/rag.py:70-112 | RuntimeError when the store is missing or not ready; in RAG mode search with top_k, sources are exactly the hits and mode "rag"; in baseline mode no search, sources [] and mode "baseline"; in both modes the answer is `_chat_completion` (ChatCompletion) of the system and user messages, so it has no whitespace at either end |
| Generation.CleanContext | eduweave/generation.py:13-15 | a prefix of the whitespace-normalised text, of length min(limit, n) for limit ≥ 0 and max(n + limit, 0) otherwise, empty exactly when the text is blank or the limit keeps nothing |
| Generation.CleanContextShape | eduweave/generation.py:14-15 | the context has ' ' as its only whitespace, never twice in a row, and does not start with whitespace |
| Generation.SummaryPrompt | eduweave/generation.py:28-35 | the summary prompt starts with the "Source material:" header and carries the whole context right after it |
| Generation.SummaryRequest | eduweave/generation.py:24-39 | no request for an empty context; otherwise the summary instruction line followed by the prompt over the cleaned context |
| Generation.GenerateSummary | eduweave/generation.py:18-42 | ValueError exactly when the cleaned context is empty, without calling the generator; otherwise the generator's reply to the request, unchanged |
| Generation.SummaryRequestCarriesContext | eduweave/generation.py:28-39 | the request starts with the instruction line and carries the whole cleaned context right after the "Source material:" header |
| Generation.McqPrompt | eduweave/generation.py:56-70 | the MCQ prompt starts with "Use the material below to create ", then `str(num_questions)`, and carries the whole context right after the "Material:" line |
| Generation.McqRequest | eduweave/generation.py:52-74 | no request for an empty context; otherwise the MCQ instruction line followed by the prompt for that many questions over the cleaned context |
| Generation.ShapeMcqs | eduweave/generation.py:79-86 | the raw reply is always returned; the list is the parsed array when the reply parses as a JSON list, else [] |
| Generation.GenerateMcqs | eduweave/generation.py:45-86 | ValueError exactly when the cleaned context is empty, without calling the generator; otherwise the raw reply is returned unchanged, the question list is the parsed array whenever the reply parses as a JSON list, and [] otherwise |
| Generation.McqPromptStarts | eduweave/generation.py:73-74 | every MCQ request starts with "You design rigorous but fair multiple-choice questions.\n" and continues beyond it |

## Left out

- `extract_text_from_pdf` (eduweave/pdf_utils.py:23-36): pypdf page parsing is a foreign library; only its per-page `clean_text` and join are modelled, through `combine_texts`.
- The network calls of `_chat_completion` (eduweave/rag.py:29-43, 51-58): modelled as the `chat` and `generate` parameters. A chat call that raises, or whose text is empty, is `chat` returning None or "", and the model then uses the fallback prompt, as the code does. An exception raised by `client.text_generation` (eduweave/rag.py:51-57) propagates out of `answer_question` in the code; the model's `generate` always returns, so that failure is not modelled. Token environment variables, the model name and `max_tokens` are not modelled.
- The embedder and FAISS `IndexFlatL2` internals, L2 normalisation and float distances: abstract functions, with integer distances.
- `textwrap.shorten` (eduweave/rag.py:88) and `json.loads` (eduweave/generation.py:80): abstract parameters with no contract of their own.
- Temperature selection with `or` on floats (eduweave/rag.py:108, eduweave/generation.py:40, 75) and token budgets are foreign-call arguments; they are not modelled.
- `local_llm.py`, `experiment_tracker.py`, `__init__.py` and the Streamlit UI in `app.py` are not part of this model. `app.py:102` replaces `full_text` with `combine_texts` output after a build; the model keeps `build`'s own `" ".join(texts)`.
- `min_chunk_size` (eduweave/config.py:15) is never read: the floor 200 is fixed in text_processing.py:26. `distance_cutoff` and `max_k` (eduweave/config.py:24-25) are never applied, and the model applies none.
- VectorStore.VectorStoreManager.Build: a `batch_size` of 0 or less, which makes Python's `range` raise or yield nothing, is modelled as an error that changes nothing. The `np.vstack` width check on batches of unequal dimension is not modelled: the dimension is that of the first vector.
- VectorStore.VectorStoreManager.Build: `build` stores the caller's `texts` and `metadatas` lists by reference (eduweave/vector_store.py:69-70), so later changes the caller makes to them show in the store. The model's fields hold values, so this aliasing is not modelled.
- VectorStore.VectorStoreManager.constructor: the optional dataclass fields `text_chunks`, `metadatas` and `full_text` (eduweave/vector_store.py:29-31) are not constructor parameters; a fresh store always starts with their defaults.
- `build` does not check that `metadatas` is as long as `texts`. The model does not require it either: a shorter list surfaces as an error of `search`.
- VectorStore.VectorStoreManager.Search: the `top_k` bound on the hits is stated on condition that the abstract `knn` returns at most k pairs for every k ≥ 0. That is FAISS's promise, and the model does not assume it of `knn`.
- Concurrency and atomic rebuild: the code is single-threaded. In the model, `build` assigns all fields in one method. The intermediate state, in which `_index` is set before `text_chunks` (eduweave/vector_store.py:66-69), is not observable.
- `Common.IsSpace` lists the Unicode code points Python counts as whitespace. Characters such as '\x0b' and '\x0c' are whitespace to `strip()`, but `clean_text` leaves them in the interior of a page. IsClean therefore speaks only of ' ', '\t', '\r', '\n' and NUL.
- TextProcessing.ChunkText: the unreachable exit at text_processing.py:58-59 is kept in the as-written loop. The corrected loop stops when the cursor would not move. On a stalling input it therefore returns the chunks so far: the rest of the text after the stall is not chunked.
- Generation.CleanContext: for a negative limit the length is `max(n + limit, 0)`, because Python slicing drops characters from the end. The bound `len ≤ max(limit, 0)` holds only for limit ≥ 0, and that is what the model states.

## Findings

| source | as written | input that shows it | evidently intended | confidence | as-written member | corrected member |
|---|---|---|---|---|---|---|
| eduweave/text_processing.py:54-59 | the loop exits only when the chunk end reaches the text end or the new cursor is past the text; nothing checks that `start` moved forward | `chunk_text("a"*398 + " bb", chunk_size=400, chunk_overlap=400)`: the overlap is clamped to 399, the space cut ends the chunk at 398, and `start = max(398-399, 0) = 0` forever | stop when the new `start` would not lie past the old one, so that every iteration makes progress | not executed | TextProcessing.ChunkTextStalls | TextProcessing.ChunkText |
