# Résumé RAG index: text normalisation, chunking, batching and top-k retrieval in Dafny

This project models the part of the résumé question-answering service that
has logic of its own:

- the offline index builder's text normaliser, `normalize`;
- its paragraph chunker, `chunk_markdown`;
- the batching loop of its embedder, `embed_texts`;
- on the query side, the load-once index cache `_load_index`, the lazily
  created client `_client_get`, and the top-k selection and pairing of
  `retrieve`.

The model has five modules:

- `Prelude` (prelude.dfy): `Result` and `Option`, and the flattening of a
  list of lists.
- `Text` (text.dfy): `normalize` as a chain of four recursive string
  rewrites.
  - `\r\n` becomes `\n`, then `\r` becomes `\n`.
  - Each run of spaces and tabs becomes one space.
  - Each run of three or more newlines becomes two.
  - Whitespace is stripped at both ends. "Whitespace" is the character set
    Python's `str.strip()` removes (`IsSpace`).
- `Chunking` (chunking.dfy): `chunk_markdown` as the imperative loop it is
  (`ChunkMarkdown`), proved equal to a left fold (`Run` of `Step`) over the
  blocks.
  - The fold also records which blocks went into each chunk.
  - Its invariant `Inv`/`Layout` carries block coverage, non-emptiness,
    overlap seeding, the size rule and greedy sealing from step to step.
- `Embedding` (embedding.dfy): `embed_texts` as a loop over 64-text
  batches (`EmbedTexts`). It is proved equal to a fold (`Embedded`) over
  the batch list `Batches`. The embedding provider is a function parameter
  that either returns vectors or raises.
- `Retrieval` (retrieval.dfy):
  - `np.argsort(scores)[-k:][::-1]` with Python's slice rules.
  - The pairing loop (`CollectHits`).
  - A class `Retriever` whose fields are the module globals `_client`,
    `_chunks` and `_vectors`.

Some of the code's behaviour differs from what a reader of its docstrings
and names might expect. The model follows the code as written:

- Oversized chunks:
  - One might expect every chunk to fit in `max_chars` unless one block
    alone is larger.
  - The code also lets a new buffer seeded with the previous chunk's tail
    exceed `max_chars` with nothing appended. For example, with
    `max_chars = 3` and `overlap_chars = 250` (any overlap of at least 2
    behaves the same), the text `"ab\n\ncd"` gives the chunks `"ab"` and
    `"ab\n\ncd"`. With `overlap_chars = 0` the second chunk is `"cd"`, and
    with `overlap_chars = 1` it is `"b\n\ncd"`.
  - `Chunking.ChunkSizeBound` states the bound the code does give.
- `k <= 0`:
  - One might expect `retrieve` to return nothing.
  - The code returns every chunk for `k = 0`, because `[-0:]` is the whole
    array, and all but the `|k|` lowest for `k < 0` (`Retrieval.TopCount`).
- Missing index files raise a plain `RuntimeError` (src/rag_resume.py:28-30),
  modelled as `Retrieval.Error.IndexNotFound`.
- Overlap seed:
  - One might expect a new chunk to start with the raw trailing
    `overlap_chars` characters of the previous one.
  - The code strips `tail + "\n\n" + b`, so the seed is the left-stripped
    tail (`Chunking.Overlap`).
- Missing API key: `_client_get` passes `os.getenv("OPENAI_API_KEY")`,
  which is `None` when the variable is unset. The OpenAI client constructor
  then raises, and `_client` stays `None`. This is modelled as
  `Retrieval.Error.MissingApiKey`.

## Model

| member | source | states |
|---|---|---|
| Text.UnifyCrLf | RAG/build_resume_index.py:57 | `replace("\r\n", "\n")` never makes the text longer; what it produces is fixed by `Text.UnifyCrLfCut`, `Text.UnifyCrLfSplice` and `Text.UnifyCrLfIdentity` (a `\r` not followed by `\n` is kept) |
| Text.CrToLf | RAG/build_resume_index.py:57 | the result has the input's length and no `\r`; each `\r` became `\n` and every other character is unchanged |
| Text.CollapseHoriz | RAG/build_resume_index.py:58 | `re.sub(r"[ \t]+", " ", ...)` never makes the text longer, and the result starts with a space exactly where the input starts with a space or tab, else with the input's first character |
| Text.CollapseNewlines | RAG/build_resume_index.py:59 | `re.sub(r"\n{3,}", "\n\n", ...)` never makes the text longer and keeps the first character |
| Text.Strip | RAG/build_resume_index.py:60 | `str.strip()`: the result is a contiguous piece of the input with only whitespace before and after it, has no whitespace at either end, and text already stripped is returned unchanged |
| Text.Normalize | RAG/build_resume_index.py:56-60 | `normalize` never makes its input longer |
| Text.NormalizeCanonical | RAG/build_resume_index.py:56-60 | the output has no `\r`, no tab, no two spaces in a row, no three newlines in a row, and no whitespace at either end |
| Text.CollapseHorizShape | RAG/build_resume_index.py:58 | after collapsing space/tab runs there is no tab and no double space, and no `\r` is introduced |
| Text.CollapseNewlinesShape | RAG/build_resume_index.py:59 | after collapsing newline runs there are no three newlines in a row, and the earlier steps' guarantees (no `\r`, tab or double space) survive |
| Text.StripShape | RAG/build_resume_index.py:60 | stripping keeps the absence of `\r`, tabs, double spaces and triple newlines |
| Text.UnifyCrLfIdentity | RAG/build_resume_index.py:57 | replacing `\r\n` leaves unchanged any text with no `\r` directly before a `\n`, so a lone `\r` is kept |
| Text.CollapseHorizIdentity | RAG/build_resume_index.py:58 | collapsing space/tab runs leaves text without tabs or double spaces unchanged |
| Text.CollapseNewlinesIdentity | RAG/build_resume_index.py:59 | collapsing newline runs leaves text without triple newlines unchanged |
| Text.FixedPointIffCanonical | RAG/build_resume_index.py:56-60 | `normalize(t) == t` exactly when `t` is in the canonical shape above |
| Text.NormalizeIdempotent | RAG/build_resume_index.py:56-60 | `normalize(normalize(s)) == normalize(s)` |
| Text.UnifyCrLfKeeps | RAG/build_resume_index.py:57 | the `\r\n` rewrite keeps the non-whitespace characters, in order |
| Text.CrToLfKeeps | RAG/build_resume_index.py:57 | the `\r` rewrite keeps the non-whitespace characters, in order |
| Text.CollapseHorizKeeps | RAG/build_resume_index.py:58 | collapsing space/tab runs keeps the non-whitespace characters, in order |
| Text.CollapseNewlinesKeeps | RAG/build_resume_index.py:59 | collapsing newline runs keeps the non-whitespace characters, in order |
| Text.UnifyCrLfCut | RAG/build_resume_index.py:57 | the `\r\n` rewrite of `t + u` is the rewrite of `t` followed by that of `u`, unless a `\r\n` straddles the cut |
| Text.UnifyCrLfSplice | RAG/build_resume_index.py:57 | each `\r\n` becomes exactly one `\n`, and the text on either side is rewritten on its own |
| Text.HorizRunAppend | RAG/build_resume_index.py:58 | the leading space/tab run of `a + b` is that of `a`, or all of `a` followed by the run of `b` |
| Text.CollapseHorizCut | RAG/build_resume_index.py:58 | the space/tab rewrite of `t + u` is the rewrite of `t` followed by that of `u`, unless a run straddles the cut |
| Text.HorizRunAll | RAG/build_resume_index.py:58 | a string of only spaces and tabs is a single run |
| Text.CollapseHorizRun | RAG/build_resume_index.py:58 | a run of spaces and tabs on its own becomes one space |
| Text.CollapseHorizSplice | RAG/build_resume_index.py:58 | a maximal run of spaces and tabs becomes one space, and the text on either side (a line feed included) is rewritten on its own |
| Text.NewlineRunAppend | RAG/build_resume_index.py:59 | the leading line-feed run of `a + b` is that of `a`, or all of `a` followed by the run of `b` |
| Text.CollapseNewlinesCut | RAG/build_resume_index.py:59 | the newline rewrite of `t + u` is the rewrite of `t` followed by that of `u`, unless a run straddles the cut |
| Text.NewlineRunAll | RAG/build_resume_index.py:59 | a string of only line feeds is a single run |
| Text.CollapseNewlinesRun | RAG/build_resume_index.py:59 | a run of line feeds on its own becomes `\n\n` when it is three or more long and is kept otherwise |
| Text.CollapseNewlinesSplice | RAG/build_resume_index.py:59 | a maximal run of three or more line feeds becomes exactly `\n\n`, a shorter run is kept, and the text on either side is rewritten on its own |
| Text.StripKeeps | RAG/build_resume_index.py:60 | stripping keeps the non-whitespace characters, in order |
| Text.NormalizeKeepsNonSpace | RAG/build_resume_index.py:56-60 | the subsequence of non-whitespace characters of `normalize(s)` is that of `s` |
| Text.NormalizeNotEmpty | RAG/build_resume_index.py:56-60 | text with a visible character normalises to non-empty text |
| Chunking.Split | RAG/build_resume_index.py:71 | `md.split("\n\n")`: at least one piece, no piece contains `"\n\n"`, the first piece is a prefix of the text |
| Chunking.SplitJoin | RAG/build_resume_index.py:71 | joining the pieces of `split("\n\n")` with `"\n\n"` gives back the text |
| Chunking.StripNonBlank | RAG/build_resume_index.py:71 | the kept blocks are at most the pieces, each non-empty and stripped |
| Chunking.Blocks | RAG/build_resume_index.py:71 | there are at most as many blocks as pieces of `split("\n\n")`, each non-empty with no whitespace at either end |
| Chunking.JoinKeeps | RAG/build_resume_index.py:71 | joining pieces with `"\n\n"` has the same visible characters, in order, as concatenating them |
| Chunking.StripNonBlankAppend | RAG/build_resume_index.py:71 | the pieces are stripped and filtered one at a time, in order: the blocks of `ps + qs` are those of `ps` followed by those of `qs` |
| Chunking.StripNonBlankSnoc | RAG/build_resume_index.py:71 | one more piece adds its stripped text as one more block, or nothing when it strips to empty |
| Chunking.StripFreeOfSep | RAG/build_resume_index.py:71 | stripping a piece without a blank-line separator leaves it without one |
| Chunking.StripNonBlankFree | RAG/build_resume_index.py:71 | when no piece holds a separator, no kept block does |
| Chunking.BlocksFreeOfSep | RAG/build_resume_index.py:71 | no block holds a `\n\n` separator |
| Chunking.StripNonBlankKeeps | RAG/build_resume_index.py:71 | stripping the pieces and dropping the blank ones loses no visible character |
| Chunking.BlocksKeepText | RAG/build_resume_index.py:71 | no content is lost: the blocks concatenated have exactly the visible characters of the text, in order |
| Chunking.BlocksEmptyIff | RAG/build_resume_index.py:71 | there are no blocks exactly when the text has no visible character |
| Chunking.ChunkMarkdown | RAG/build_resume_index.py:62-90 | the loop computes `Chunks`; there are at most as many chunks as blocks; the result is `[]` exactly when the text has no visible character; every chunk is non-empty and normalised |
| Chunking.Tail | RAG/build_resume_index.py:84 | `cur[-overlap_chars:] if overlap_chars > 0 else ""`: a suffix of the buffer of length `min(overlap_chars, len(cur))` when the overlap is positive, else empty |
| Chunking.Reseed | RAG/build_resume_index.py:85 | the new buffer has no whitespace at either end and is no longer than the tail, the separator and the block |
| Chunking.Step | RAG/build_resume_index.py:75-85 | one iteration only appends to the sealed chunks, and by at most one |
| Chunking.Run | RAG/build_resume_index.py:75-85 | after the loop has consumed some blocks, no more chunks are sealed than blocks were consumed |
| Chunking.RunCount | RAG/build_resume_index.py:75-88 | the sealed chunks together with the final buffer, if non-empty, number at most the blocks |
| Chunking.NormalizeNonBlank | RAG/build_resume_index.py:90 | the final filter never adds chunks |
| Chunking.Chunks | RAG/build_resume_index.py:62-90 | `chunk_markdown` returns no more chunks than there are blocks |
| Chunking.ReseedShape | RAG/build_resume_index.py:84-85 | the new buffer `(tail + "\n\n" + b).strip()` is the left-stripped tail and `"\n\n"` followed by the block when `overlap_chars > 0`, else the block alone; it is non-empty and stripped |
| Chunking.RunInv | RAG/build_resume_index.py:75-88 | after any prefix of the blocks, the packing state satisfies the layout invariant (coverage, leads, size rule, greediness) |
| Chunking.StepInv | RAG/build_resume_index.py:75-85 | one loop iteration (start, append or seal-and-reseed) keeps the layout invariant |
| Chunking.LayoutGrowLast | RAG/build_resume_index.py:80-81 | appending a fitting block to the buffer keeps the layout invariant |
| Chunking.LayoutAddChunk | RAG/build_resume_index.py:82-85 | sealing the buffer and starting a seeded one keeps the layout invariant |
| Chunking.NormalizeNonBlankKeepsAll | RAG/build_resume_index.py:90 | the final filter drops nothing, because every buffer is non-empty and stripped; chunk `j` is `normalize` of buffer `j` |
| Chunking.ChunkLayout | RAG/build_resume_index.py:71-90 | block coverage and overlap seeding: chunks correspond one-to-one to non-empty groups of blocks that flatten to the block list in order; each buffer is its lead (empty for the first chunk or without overlap, else the left-stripped tail of the previous chunk and `"\n\n"`) followed by its blocks joined with `"\n\n"`; each chunk is `normalize` of its buffer |
| Chunking.ChunkSizeBound | RAG/build_resume_index.py:76-85 | a chunk longer than `max_chars`, even after the final normalize, holds exactly one block and is its lead followed by that block |
| Chunking.ChunkGreedy | RAG/build_resume_index.py:80-83 | every chunk but the last would have outgrown `max_chars` had the next chunk's first block been appended |
| Chunking.ChunksCount | RAG/build_resume_index.py:71-90 | there are never more chunks than blocks |
| Chunking.ChunksCanonical | RAG/build_resume_index.py:87-90 | every chunk returned is non-empty and in normalised form |
| Chunking.ChunksEmptyIff | RAG/build_resume_index.py:71-90 | `chunk_markdown` returns `[]` exactly when there is no block, exactly when the text has no visible character |
| Chunking.ChunksSpec | RAG/build_resume_index.py:62-90 | the caller-facing promises together: count bound, empty iff blank, non-empty normalised chunks |
| Embedding.EmbedTexts | RAG/build_resume_index.py:92-107 | the loop sends the batches in order and returns the first exception raised or the concatenation of the responses (`Embedded` of `Batches`) |
| Embedding.EmbeddedErrSticks | RAG/build_resume_index.py:98-104 | once a batch raises, the outcome is that exception whatever batches would have followed |
| Embedding.Batches | RAG/build_resume_index.py:98-99 | the batches concatenated are the texts in order, each batch is non-empty and at most 64 texts, and there are `ceil(n / 64)` of them |
| Embedding.Embedded | RAG/build_resume_index.py:98-104 | a run over the batches succeeds only if every batch's call succeeds |
| Embedding.EmbeddedOk | RAG/build_resume_index.py:98-104 | the run succeeds exactly when every batch succeeds, and then returns the per-batch responses concatenated in batch order |
| Embedding.EmbedTextsPointwise | RAG/build_resume_index.py:92-107 | with a provider that embeds each text of a batch in order, row `i` of the result is the embedding of `texts[i]` |
| Embedding.MapFlatten | RAG/build_resume_index.py:104 | extending by each batch's mapped texts is mapping the concatenated texts |
| Retrieval.IsArgsort | src/rag_resume.py:52 | what `np.argsort(scores)` is taken to return: every index exactly once, with scores ascending along it (a predicate, no contract) |
| Retrieval.TailStart | src/rag_resume.py:52 | the start of the slice `[-k:]` lies within the array |
| Retrieval.TopIndices | src/rag_resume.py:52 | `order[-k:][::-1]`: as many indices as the slice keeps, position `j` holding the `j`-th last index of `order` |
| Retrieval.TopCount | src/rag_resume.py:52 | `min(k, n)` indices for `k >= 1`, all `n` for `k = 0`, `max(0, n - |k|)` for `k < 0` |
| Retrieval.TopDescending | src/rag_resume.py:52 | the selected indices are valid and distinct, and their scores are non-increasing |
| Retrieval.TopSet | src/rag_resume.py:52 | no index left out scores higher than any index selected |
| Retrieval.TopAll | src/rag_resume.py:52 | for `k = 0` or `k >= n` every index is selected |
| Retrieval.Pair | src/rag_resume.py:54-56 | the results pair `scores[i]` with `chunks[i]` for each selected `i`, in order, and raise `IndexError` exactly when some `i` is past the end of the chunks |
| Retrieval.CollectHits | src/rag_resume.py:54-56 | the append loop computes `Pair` |
| Retrieval.Ranked | src/rag_resume.py:52-57 | a result has one hit per selected index; the only error is `IndexError`; with at least one chunk per score it succeeds |
| Retrieval.RankedOrder | src/rag_resume.py:52-57 | returned scores are non-increasing and no chunk left out scores higher than a returned one |
| Retrieval.RankedOk | src/rag_resume.py:51-57 | with one chunk per vector, retrieval succeeds with `min(k, n)`, `n` or `max(0, n - |k|)` results |
| Retrieval.RankedEmpty | src/rag_resume.py:51-57 | an empty index yields an empty list |
| Retrieval.Answer | src/rag_resume.py:36-57 | what `retrieve` returns once the index is in memory: the missing-key error without a client, the service's error when the query cannot be embedded, a result only with a client and an embedded query, and never the missing-index error |
| Retrieval.AnswerRanked | src/rag_resume.py:43-57 | with one chunk per vector, a client and an embedded query, `retrieve` succeeds with `min(k, n)` hits for `k >= 1` (`n` for `k = 0`, `max(0, n - |k|)` for `k < 0`), best first, and no chunk left out scores higher than one returned |
| Retrieval.Scores | src/rag_resume.py:51 | `vectors @ qv`: one score per stored vector, the dot product with the query |
| Retrieval.Retriever.constructor | src/rag_resume.py:15-17 | the three globals start as `None` |
| Retrieval.Retriever.ClientGet | src/rag_resume.py:19-23 | the first call creates and caches the client from the API key, or raises and caches nothing when there is no key; later calls return the cached client; the index is untouched |
| Retrieval.Retriever.LoadIndex | src/rag_resume.py:25-34 | with both globals set, the cached pair is returned and nothing changes; otherwise a missing file raises `RuntimeError` and changes nothing, and two present files are loaded, cached and returned |
| Retrieval.Retriever.Retrieve | src/rag_resume.py:43-57 | an index already cached stays cached; otherwise two present files are loaded and cached, and a missing one raises `RuntimeError` and changes nothing; once the index is in memory the client is the cached one or is created from the key, and the result is `Answer` of the cached chunks and vectors: the missing-key error, the service's error, or the ranked hits |

## Left out

- Floating point: scores are reals and vectors an opaque type. The float32
  casts, the L2 normalisation with `1e-12` (RAG/build_resume_index.py:126-127,
  src/rag_resume.py:40) and the dot product are not modelled. `dot` is a
  parameter of `Retrieve`.
- numpy's `argsort` is a parameter, required to return a sorting
  permutation. Ties may come in any order, as with numpy's unstable default
  sort.
- Network calls are parameters:
  - the OpenAI embedding calls (RAG/build_resume_index.py:100-103,
    src/rag_resume.py:36-41);
  - `_embed_query` is the `embed` parameter of `Retrieve`;
  - an exception from them becomes an `Err`.
- Files are modelled as parsed contents:
  - Each index file is `None` when absent, otherwise its parsed contents.
  - JSON or `.npy` parse errors and other I/O errors are not modelled.
  - Reading the résumé, writing the index files, the SHA-256 file and chunk
    hashes, the metadata record, `load_dotenv`, logging and `main()`
    (RAG/build_resume_index.py:112-154) are not part of this model.
- The HTTP service (main.py, src/main.py) and the PDF chat assistant
  (src/gptAssistant.py) are not part of this model; they are transport and
  foreign calls.
- Retrieval.Retriever.LoadIndex: both globals are assigned together. The
  case where the chunks load but the vectors file then fails to parse,
  leaving `_chunks` set, is not modelled.
- Default arguments (`max_chars = 1800`, `overlap_chars = 250`, `k = 5`)
  are not modelled: every parameter is passed explicitly.
- Concurrency: the globals are not guarded against concurrent first calls
  in the source, and the model is sequential.
