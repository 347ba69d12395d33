# NEXTURN_RAG core, modelled in Dafny

This project models the deterministic core of a question-answering pipeline
over uploaded business documents:

- **Loader.** Uploaded PDF, text, JSON, XML and Excel files are turned into
  `{filename, content}` entries. A spreadsheet is flattened into `col: value`
  lines.
- **Chunker.** Documents are split into sections before headings (`# ` to
  `###### `), numbered items (`12. `) and `Section <n>` markers. Every section
  is stripped, and blank sections are dropped.
- **Index and retrieval.** One indexed document is built per chunk. The
  candidates from the similarity search are then filtered by a year
  (`20dd`) mentioned in the query. If fewer than `top_k` candidates mention
  it, the filter falls back to the unfiltered list.
- **Chain-of-thought prompt.** A fixed instruction template is wrapped
  around one context block per retrieved chunk.
- **App logic.**
  - The "what does X say" filename route.
  - The "already structured" bypass: a document that contains both `Year:`
    and `Revenue:` sends the unsplit documents straight to the index.
  - The query path from the loaded documents to the prompt.
  - The quality bands and the explanation lookup used when metrics are shown.
- **Evaluation.** Token-set precision, recall and F1, and the accuracy count
  with its 0.6 threshold.

## Modules

- `wrappers.dfy` (`Wrappers`): `Option` and `Result`.
- `text.dfy` (`Text`): the pieces of Python used by the code.
  - Character classes of `\s`, `\d` and `\w`.
  - `str.strip`, `str.lower` and `str.join`.
  - Substring tests, prefix slicing and subsequences.
- `chunker.dfy` (`Chunker`): `chunk_sections`. It includes the lookahead
  split `\n(?=(?:#{1,6} |\d+\.\s+|Section\s+\d+))`.
- `faiss_handler.dfy` (`FaissHandler`):
  - the chunk-to-document step of `build_faiss_index`;
  - year detection, filtering, fallback and projection in `get_top_chunks`.
- `chain_of_thought.dfy` (`ChainOfThought`): `cot_prompt`.
- `file_loader.dfy` (`FileLoader`): `load_files`.
- `evaluation.dfy` (`Evaluation`): `tokenize`, `compute_token_f1`, and the
  accuracy count of `evaluate_predictions`.
- `app.dfy` (`App`): the logic of `app.py`:
  - the filename route;
  - the bypass;
  - index building and the query prompt;
  - the metric table and explanations.

Loops in the source become methods with loop invariants. Each method is
proved equal to a specification function. Examples:
- `Chunker.ChunkSections` is proved equal to `AllChunks`.
- `FileLoader.LoadFiles` is proved equal to `LoadAll`.
- `ChainOfThought.CotPrompt` is proved equal to `Preamble + Context(..) + ...`.
- `Evaluation.EvaluateAccuracy` is proved equal to `EntryScores` and `Accuracy`.
- `App.ExplainMetrics` is proved equal to `Reports(MetricPairs(..))`.

Lemmas then prove properties of those functions.

Behaviours of the code worth knowing, each stated and proved as written:
- **Every context block holds every excerpt.** The generator inside the
  `cot_prompt` loop runs over all chunks. So each block holds the excerpts
  of every chunk, not just its own (`ChainOfThought.EveryBlockHoldsEveryExcerpt`).
- **The year filter never takes effect in the app.** The similarity search
  always asks for 3 candidates, but the app requests `top_k=5`. So the whole
  pool is always used (`FaissHandler.AppSelectsWholePool`).
- **`F1_Score` gets no explanation.** The explanation map spells the key
  `F1_SCORE`, while the evaluation reports `F1_Score`. The lookup is
  case-sensitive, so that metric shows "No explanation available."
  (`App.OnlyF1ScoreUnexplained`).
- **A text or JSON read error stops the whole load.** PDF, XML and Excel
  errors become the entry's content instead (`FileLoader.LoadAllSucceeds`,
  `FileLoader.LoadAllFailsAtFirst`).

## Model

| member | source | states |
|---|---|---|
| Text.StripSpec | utils/chunker.py:35 | `strip()` returns the slice between the leading and trailing whitespace. It is empty exactly when the text is all whitespace; otherwise it starts and ends with non-whitespace, and everything dropped is whitespace |
| Text.NonSpaceStrip | utils/chunker.py:35 | stripping keeps every non-whitespace character, in order |
| Chunker.Split | utils/chunker.py:31 | `re.split` always returns at least one piece, the empty string for empty content; what the pieces are is stated by the rows below |
| Chunker.SplitJoin | utils/chunker.py:31 | joining the split pieces with a newline gives back the content: only boundary newlines are consumed |
| Chunker.SplitFirst | utils/chunker.py:31 | the first piece is the longest prefix before the first newline-plus-marker; the remaining pieces are the split of the text after that newline |
| Chunker.SplitNoBoundary | utils/chunker.py:31 | content with no newline followed by a marker splits into one piece, the content itself |
| Chunker.PiecesStartWithMarker | utils/chunker.py:31 | the text from every piece after the first onwards starts with a heading, numbered-item or `Section` marker |
| Chunker.NoBoundaryInPieces | utils/chunker.py:31 | no piece contains a newline followed by a marker |
| Chunker.MarkerExtends | utils/chunker.py:31 | the lookahead only inspects a prefix, so a marker still matches whatever follows it |
| Chunker.SevenHashesNoMarker | utils/chunker.py:31 | `#{1,6} ` does not match seven `#` |
| Chunker.HashWithoutSpaceNoMarker | utils/chunker.py:31 | a `#` not followed by a space is not a heading marker |
| Chunker.MarkerExamples | utils/chunker.py:31 | `## A`, `12. A` and `Section 4` are markers |
| Chunker.ChunkSections | utils/chunker.py:19-42 | the loop yields each document's stripped, non-blank sections, document by document, and nothing for no documents |
| Chunker.ChunksWellFormed | utils/chunker.py:34-40 | every chunk is non-empty, has no leading or trailing whitespace, and carries the filename of one of the documents |
| Chunker.DocProvenance | utils/chunker.py:24-29 | every chunk of a document carries the dictionary's `filename`; a dictionary without one, or a raw string, gives `"Unknown"` |
| Chunker.AllChunksAppend | utils/chunker.py:22-42 | chunks are grouped by document, in document order |
| Chunker.NoMarkerOneChunk | utils/chunker.py:31-40 | a document without a split point yields its stripped content as its only chunk, or nothing when it is blank |
| Chunker.DocCoverage | utils/chunker.py:31-40 | a document's chunks hold all of its non-whitespace characters, each once and in order |
| FaissHandler.BuildFaissIndex | utils/faiss_handler.py:33-40 | one document per chunk, in order, with the chunk's content and its `filename` (or `"Unknown"`) as metadata |
| FaissHandler.Year | utils/faiss_handler.py:49 | a year is found exactly when a word-bounded `20dd` occurs; it is the leftmost such occurrence |
| FaissHandler.YearExamples | utils/faiss_handler.py:49 | `FY2024` and `20245` mention no year; `in 2014` mentions `2014` |
| FaissHandler.Mentioning | utils/faiss_handler.py:53-55 | the filter keeps exactly the documents whose content contains the year, in pool order, each as many times as it occurs in the pool |
| FaissHandler.SelectTop | utils/faiss_handler.py:48-59 | the selection always has `min(top_k, len(pool))` documents and keeps pool order |
| FaissHandler.YearFilterApplies | utils/faiss_handler.py:51-57 | with a year and at least `top_k` documents mentioning it, the result is the first `top_k` of them, each containing the year |
| FaissHandler.YearFilterFallsBack | utils/faiss_handler.py:57-59 | without a year, or with fewer than `top_k` mentions, the result is the unfiltered prefix |
| FaissHandler.AppSelectsWholePool | utils/faiss_handler.py:48-59 | with at most 3 candidates and `top_k = 5`, the whole pool is returned whatever the query says |
| FaissHandler.GetTopChunks | utils/faiss_handler.py:47-64 | results are unchanged copies of pool documents' content and metadata, `min(top_k, len(pool))` of them, in pool order |
| ChainOfThought.CotPrompt | prompts/chain_of_thought.py:34-88 | the prompt is the fixed instructions, the context blocks accumulated in chunk order, and the question inserted verbatim |
| ChainOfThought.EmptyContext | prompts/chain_of_thought.py:34-38 | no chunks give an empty context |
| ChainOfThought.EveryBlockHoldsEveryExcerpt | prompts/chain_of_thought.py:35-38 | the block of chunk `i` starts `From <name of i>:` and contains the first 1000 characters of every chunk `j` |
| ChainOfThought.BodyLength | prompts/chain_of_thought.py:37 | each excerpt has at most 1000 characters, so the shared body has at most 1002 characters per chunk |
| Evaluation.Words | utils/evaluation.py:38 | every found word is a non-empty run of word characters |
| Evaluation.WordsComplete | utils/evaluation.py:38 | every maximal run of word characters of the text (one not preceded by a word character) is found |
| Evaluation.WordsSound | utils/evaluation.py:38 | every found word is a maximal run of word characters of the text, the contiguous slice starting at a run start |
| Evaluation.Tokenize | utils/evaluation.py:36-38 | the tokens are exactly the lower-cased maximal runs of word characters of the text, all of them and nothing else |
| Evaluation.TokensAreLowerWords | utils/evaluation.py:36-38 | tokens are non-empty runs of word characters with no upper-case letter |
| Evaluation.TokenizeIgnoresCase | utils/evaluation.py:36-38 | a text and its lower-case form have the same tokens |
| Evaluation.NoWordsNoTokens | utils/evaluation.py:38 | text without word characters has no tokens |
| Evaluation.SetScores | utils/evaluation.py:44-52 | without common tokens all three scores are 0. Otherwise precision is common/predicted and recall is common/reference, both in (0, 1], and F1 is their harmonic mean 2pr/(p+r), in (0, 1]. F1 is always in [0, 1] |
| Evaluation.TokenF1 | utils/evaluation.py:40-52 | F1 is positive exactly when the reference and the prediction share a token, and never above 1 |
| Evaluation.TokenF1Symmetric | utils/evaluation.py:40-52 | swapping reference and prediction swaps precision and recall and keeps F1 |
| Evaluation.TokenF1Identical | utils/evaluation.py:40-52 | identical non-empty token sets score (1, 1, 1) |
| Evaluation.MissingPredictionScoresZero | utils/evaluation.py:58-60 | a question absent from the predictions is scored against `""`: its entry's F1 is 0 and it is never counted correct |
| Evaluation.CountCorrect | utils/evaluation.py:77-79 | never more correct answers than questions |
| Evaluation.Accuracy | utils/evaluation.py:82-83 | accuracy is in [0, 1]; it is 0 without questions; accuracy times total equals the number correct; it is 1 exactly when every one of at least one question is correct |
| Evaluation.EvaluateAccuracy | utils/evaluation.py:54-83 | one token F1 per ground-truth entry, in order; the count of scores at or above 0.6; and the accuracy from that count |
| FileLoader.FormatOf | utils/file_loader.py:45-87 | a file is skipped exactly when its name ends with none of `.pdf`, `.txt`, `.json`, `.xml`, `.xlsx` |
| FileLoader.FlattenSheet | utils/file_loader.py:91-95 | the row loop gives the row texts joined by a blank line; each row text is its `col: value` lines |
| FileLoader.SheetContainsEveryCell | utils/file_loader.py:92-95 | every cell appears in the flattened text as its stripped `col: value` line |
| FileLoader.YearRevenueSheet | utils/file_loader.py:92-95 | a sheet with a row and columns named `Year` and `Revenue` flattens to text containing `Year:` and `Revenue:` |
| FileLoader.Load | utils/file_loader.py:42-101 | unsupported names contribute nothing. A text or JSON read error is raised, with its message. Every other supported file gives one entry named after it |
| FileLoader.LoadFile | utils/file_loader.py:43-101 | the suffix dispatch and per-format reading of one upload agree with `Load` |
| FileLoader.LoadFiles | utils/file_loader.py:39-103 | the loop returns the entries of all uploads in order, or the first error raised |
| FileLoader.LoadAllEntries | utils/file_loader.py:39-103 | a successful load has exactly one entry per supported upload, in upload order, each what `Load` makes of it |
| FileLoader.DescribesAt | utils/file_loader.py:53-101 | the `k`-th entry is named after the `k`-th supported upload and holds what `Load` makes of it |
| FileLoader.LoadAllSucceeds | utils/file_loader.py:45-101 | without a failing text or JSON upload the load succeeds, whatever PDF, XML or Excel reads fail |
| FileLoader.LoadAllFailsAtFirst | utils/file_loader.py:59-72 | the load fails with the error of the first failing text or JSON upload |
| FileLoader.LoadsSheet | utils/file_loader.py:87-95 | an Excel file that reads yields its flattened sheet |
| FileLoader.LoadsPdfPages | utils/file_loader.py:45-56 | a PDF that reads yields its page texts joined by newlines, and contains each page's text |
| App.CaptureEnd | app.py:56 | the lazy `(.*?)` ends at the first position where ` say` follows, and never crosses a newline |
| App.FindRoute | app.py:56 | the search finds the leftmost match with its shortest capture, or none when no match exists |
| App.RouteKeyword | app.py:56-58 | the route fires exactly when the lower-cased query matches. The keyword comes from the leftmost, shortest match: stripped, spaces removed, lower-cased. It holds no space and no upper-case letter |
| App.RouteExample | app.py:56-58 | `What does A b say` routes with keyword `ab` |
| App.Matches | app.py:60-63 | the matched documents are, in document order, exactly those whose space-free lower-case filename contains the keyword, each as many times as it occurs in the list |
| App.EmptyKeywordMatchesAll | app.py:60-63 | an empty keyword matches every document |
| App.FirstMatch | app.py:60-66 | the first match is the first document, in order, whose filename key contains the keyword |
| App.FilenameRoute | app.py:60-82 | with no match the reply reports the keyword and no document's filename key contains it; otherwise the reply quotes the first match, a listed document whose key contains the keyword |
| App.FilenameRouteFinds | app.py:60-82 | something is found exactly when some document's filename key contains the keyword |
| App.FilenameRouteReply | app.py:65-75 | a found reply quotes the first matching document |
| App.FoundQuotes | app.py:66-75 | the reply names the file and shows exactly the first 2000 characters of content (`content[:2000]`). Its prompt is the filename prompt for the first 3000 characters, which the shown text is a prefix of, and it quotes the query verbatim |
| App.ShownWithinPrompted | app.py:67-72 | the 2000 characters shown are a prefix of the 3000 characters prompted, which are a prefix of the content |
| App.PromptQuotes | app.py:69-75 | the filename prompt contains the excerpt and the query verbatim |
| App.IsStructured | app.py:86-91 | the bypass holds exactly when some loaded document contains both `Year:` and `Revenue:` |
| App.StructuredAppend | app.py:86-91 | the bypass holds for a concatenation of document lists exactly when it holds for either part |
| App.SpreadsheetTriggersBypass | app.py:86-92 | a loaded spreadsheet with a row and `Year` and `Revenue` columns makes the document list structured |
| App.SelectChunks | app.py:86-94 | under the bypass the documents go to the index unsplit; otherwise their section chunks do. Every chunk has content and the filename of an uploaded document |
| App.BuildIndex | app.py:86-96 | every indexed document is named after an uploaded file. Under the bypass the index is exactly the documents in order; otherwise it is the section chunks in order, each with its content and filename |
| App.AsContextChunk | prompts/chain_of_thought.py:36 | a retrieval result has no `filename` key, so its block is labelled with `metadata["filename"]` |
| App.QueryPrompt | app.py:96-102 | the prompt's context is built from the whole candidate pool, in similarity order, whatever year the query mentions |
| App.QualityLevel | app.py:195-203 | the levels partition the scores at 0.3, 0.5 and 0.75: Poor, Fair, Good, Excellent |
| App.QualityMonotone | app.py:195-203 | a higher score never gets a lower level |
| App.MetricPairs | app.py:157 | the table keeps every result except `Model Used`, in order |
| App.OnlyF1ScoreUnexplained | app.py:161-192 | of the five reported metrics, exactly `F1_Score` gets "No explanation available." |
| App.ExplainMetrics | app.py:205-210 | one report per result other than `Model Used`, in order, with its level and explanation |
| App.ReportsSkipModelUsed | app.py:205-210 | no report is about `Model Used`, and every other result is reported |

## Left out

- **Not part of this model:**
  - embeddings, the FAISS similarity search (`index.similarity_search`) and the language model (`generate_response`);
  - the Streamlit page;
  - `utils/retriever.py`.
- **Candidate pool:** the documents the similarity search returns are an input to `get_top_chunks`, already in similarity order.
- **Loader inputs:** the file-format libraries are not modelled (PDF text extraction, UTF-8 decoding, `json.load`/`json.dumps`, ElementTree, `pandas.read_excel`). Each upload carries the outcome each library would give on its bytes, as either text or an error message.
- **Spreadsheet cells:** a cell is given as its `str(...)` rendering, and column names are given as strings. So a column name that is not a string, which makes `col.strip()` fail in the source, is not modelled. Every row has one cell per column (`Rectangular`), as in a data frame.
- **Unicode:** character classes and case folding are ASCII only. Python's `\s`, `\d`, `\w`, `str.strip` and `str.lower` also act on non-ASCII characters.
- **Numbers:**
  - scores are exact rationals (`real`), not floating point;
  - ROUGE-1, ROUGE-L, cosine similarity, `np.mean`, `round(…, 4)` and the `:.2f` rendering of scores are not modelled;
  - NaN scores cannot occur.
- **Ground truth** is a sequence of (question, reference) pairs in dictionary order.
- **Evaluation button flow** (app.py:140-153): it asks the language model for each answer, so it is not modelled. The metric presentation starts from the results of `evaluate_predictions`.
- **Display steps:** the "Top Chunks Used" listing (app.py:108-113) and the `st.markdown`/`st.write` calls only display values the model already computes.
- **Bypass type checks:** the bypass tests `isinstance(doc, dict)` and `isinstance(content, str)`. These always hold for loader entries, so `App.IsStructuredDoc` tests only the two substrings.
- FaissHandler.BuildFaissIndex: requires every chunk to carry a `content` key. The source raises `KeyError` otherwise, and no caller in the app passes such a chunk.
- FaissHandler.SelectTop: `top_k` is a natural number. A negative `top_k`, which Python would read as "all but the last", is not modelled.
- App.QueryPrompt: requires a pool of at most three candidates, because the similarity search is always asked for `k=3`.
- FileLoader.Load: requires a readable spreadsheet to be rectangular (see above).
