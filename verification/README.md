# pdf-destroyer-max in Dafny

A Dafny model of the deterministic core of the pdf-destroyer-max document pipeline, with
proofs of what each part promises. The parts are:

- the PDF processor's text chunker, its per-page text extractor and its task service:
  - upload checks;
  - the `processing_tasks` status machine;
  - the OCR merge-back;
  - the result summary;
  - the progress tracker;
- the AI pipeline's page-map merger, its placeholder quality scorer and the smart
  orchestrator's bookkeeping;
- the backend's sentence-greedy summarisation chunker, its request validators, its domain
  records and enumerations, and the JWT middleware's decision sequence;
- the summariser's text validation and summary clean-up;
- the OCR service's merge of Tesseract and layout-model text, and its confidence formulas;
- the confidence heuristics of the native text extractor and the OCR worker, and the OCR
  worker's conversion of batch answers.

Each source module becomes one Dafny module:

| source | Dafny file |
|---|---|
| `text_chunker.py` | `text_chunker.dfy` |
| `merger.py` | `neural_merger.dfy` |
| `scorer.py` | `smart_orchestrator.dfy` |
| `summarizer_client.py` | `summarizer_client.dfy` |
| `text_processor.py` | `text_processor.dfy` |
| `text_extraction.py` | `ocr_extraction.dfy` |
| parallel `text_extractor.py` | `parallel_text_extractor.dfy` |
| `ocr_worker.py` | `ocr_worker.dfy` |
| PDF `text_extractor.py` | `pdf_text_extractor.dfy` |
| `main.py` | `pdf_service.dfy` |
| `utils.py` | `progress_tracker.dfy` |
| `auth_middleware.py` | `auth_middleware.dfy` |
| `types.py` | `domain_types.dfy` |
| `models.py` | `domain_models.dfy` |

Shared pieces live in their own modules:

- `wrappers.dfy`: `Option`, `Result`.
- `strings.dfy`: Python's `str.split()`, `strip()`, `split(c)`, `join`, slicing and character
  classes.
- `sorted_keys.dfy`: `sorted(d.keys())`.
- `fields.dfy`: pydantic fields that may be omitted, given or null.
- `scores.dfy`: clamping and the alphabetic ratio.

Code that updates state step by step is imperative Dafny, and each method is proved equal to
a specification function whose properties are proved as lemmas. This covers:

- the chunker's loops;
- `merge_results`;
- `register_processor` and `process_document`;
- `_chunk_text`;
- `_merge_results` and `process_image`;
- `extract_text` and `_extract_page_images`;
- the OCR worker's batch loop;
- the processing task table and the OCR merge-back of `main.py`;
- `ProgressTracker`;
- `AuthMiddleware.__call__`.

Objects whose fields change are classes:

| source object | Dafny class |
|---|---|
| `SmartOrchestrator` | `Orchestrator` |
| `NeuralMerger` | `Merger` |
| the `processing_tasks` table | `PdfService` |
| `ProgressTracker` | `ProgressTracker` |
| `request.state` | `RequestState` |

Library calls and outside inputs become parameters:

- PyMuPDF pages;
- Tesseract's word and confidence lists;
- layout-model boxes and scores;
- HTTP answers;
- `jwt.decode`;
- `int()` on a JSON key;
- the clock;
- the new task id;
- the outcome of saving a file.

Confidences and scores are `real`.

Two consequences of the code are proved outright:

- The placeholder `QualityScorer` gives blank text a total score of one half (`NeuralMerger.BlankTextScore`).
- Normalisation removes every line break, so paragraph mode yields at most one chunk per page (`TextChunker.ParagraphModeOneChunk`).

## Model

| member | source | states |
|---|---|---|
| TextChunker.NewChunker | services/pdf-processor/text_chunker.py:23-38 | A given (truthy) size is used as given. Otherwise `max_chunk_size` falls back to the configured chunk size, `min_chunk_size` to a quarter of it and `overlap` to a tenth of it (floor division). `respect_paragraphs` and the batch size are kept. |
| TextChunker.CreateChunk | services/pdf-processor/text_chunker.py:168-181 | The chunk keeps its content, page and index. `word_count` is the number of whitespace-separated words. `has_overlap` holds exactly when the index is positive. `start_offset` is 0 for the first chunk. For a later chunk it is `OverlapLength`, the length of its first `overlap` words concatenated (`len(''.join(words[:overlap]))`), which never exceeds the content length. Chunk and overlap sizes come from the configuration. |
| TextChunker.Numbered | services/pdf-processor/text_chunker.py:97-125 | The chunks of a page correspond one to one with their contents. Chunk `i` has index `i` (`len(chunks)` at creation) and the page's number. |
| TextChunker.DropSpecial | services/pdf-processor/text_chunker.py:158 | Removing special characters never lengthens the text. Every character left is a word character, whitespace or one of `.,!?-`, and comes from the input. |
| TextChunker.DropSpecialCounts | services/pdf-processor/text_chunker.py:158 | Every word character, whitespace character and one of `.,!?-` survives exactly as often as it occurs in the input. No other character survives. |
| TextChunker.DropSpecialAppend | services/pdf-processor/text_chunker.py:158 | The removal works character by character: filtering a concatenation concatenates the filtered parts, so the kept characters stay in their order. |
| TextChunker.NormalizeText | services/pdf-processor/text_chunker.py:153-159 | Normalised text has no whitespace at either end. Its only whitespace character is `' '`. Every other character is a word character or one of `.,!?-`. |
| TextChunker.NormalizeWords | services/pdf-processor/text_chunker.py:153-159 | Normalisation keeps the words: the whitespace-separated words of the normalised text are those of the input with its special characters removed. Collapsing whitespace before the removal, as the source does, gives the same words as removing first. |
| TextChunker.SplitIntoParagraphs | services/pdf-processor/text_chunker.py:161-166 | Every paragraph returned is non-empty and stripped. |
| TextChunker.NormalizedIsOneParagraph | services/pdf-processor/text_chunker.py:156-166 | Normalised text has no line break or form feed. The paragraph split of normalised text is therefore the whole text, or nothing when the text is empty. |
| TextChunker.AppendChunk | services/pdf-processor/text_chunker.py:99-100 | Appending a group's chunk extends the numbered chunks of the closed groups by exactly that group's chunk. |
| TextChunker.ChunkParagraphs | services/pdf-processor/text_chunker.py:88-116 | The paragraph loop returns the numbered, space-joined groups that the paragraph-accumulation rule (`ParaGroups`) closes. |
| TextChunker.ParagraphGroups | services/pdf-processor/text_chunker.py:94-116 | Every group is non-empty. A group holding more than its opening (and carried) paragraph has at most `max_chunk_size` words. A group is closed only when the next fresh paragraph would take it past `max_chunk_size`. With a positive overlap, each group starts with the last paragraph of the group before it. Leaving out carried paragraphs, the groups are exactly the paragraphs, in order. |
| TextChunker.ParaGroupsShape | services/pdf-processor/text_chunker.py:94-116 | Groups are non-empty, the first group extends the paragraphs accumulated so far, and an oversized group holds no more than its opening paragraph(s). |
| TextChunker.ParaGroupsMaximal | services/pdf-processor/text_chunker.py:97 | A group is closed only when it is non-empty and the next paragraph not carried over would exceed `max_chunk_size` words. |
| TextChunker.ParaGroupsLinked | services/pdf-processor/text_chunker.py:103-105 | With `overlap > 0`, the last paragraph of a closed group opens the next group. |
| TextChunker.ParaGroupsUnshared | services/pdf-processor/text_chunker.py:94-116 | No paragraph is lost or repeated, apart from the carried overlap paragraph. |
| TextChunker.CarriedParagraph | services/pdf-processor/text_chunker.py:103-108 | The carried-over paragraph is the last one of the closed group, alone, and only when the overlap is positive. |
| TextChunker.ParagraphModeOneChunk | services/pdf-processor/text_chunker.py:86-116 | Because normalisation collapses every line break, paragraph mode yields no chunk for a blank page. Otherwise it yields exactly one chunk, with index 0, holding the whole normalised text. |
| TextChunker.AppendWindow | services/pdf-processor/text_chunker.py:122-125 | A window with at least `min_chunk_size` words is appended as the next chunk. A shorter window is dropped. |
| TextChunker.ChunkWords | services/pdf-processor/text_chunker.py:118-125 | The window loop returns the numbered windows of `max_chunk_size` words, `max_chunk_size - overlap` apart, that have at least `min_chunk_size` words. |
| TextChunker.KeepLongKept | services/pdf-processor/text_chunker.py:123 | Every kept window is one of the page's windows and has at least `min_chunk_size` words. |
| TextChunker.WordWindows | services/pdf-processor/text_chunker.py:120-122 | Window `k` starts at word `k * step` and is `words[k*step : k*step + size]`, so it holds at most `size` words. There is one window per step that starts inside the word list, and none for an empty page. |
| TextChunker.ConsecutiveWindowsOverlap | services/pdf-processor/text_chunker.py:121-122 | With `0 < overlap < max`, a full window is followed by another. The last `overlap` words of the first are the first `overlap` words of the next. |
| TextChunker.WindowsCoverWords | services/pdf-processor/text_chunker.py:120-122 | With `0 <= overlap < max`, every word of the page lies in some window. |
| TextChunker.WordModeChunkSizes | services/pdf-processor/text_chunker.py:120-125 | In word mode with a positive step, every chunk's word count lies between `min_chunk_size` and `max_chunk_size`. |
| TextChunker.ChunkNormalized | services/pdf-processor/text_chunker.py:88-127 | The page's chunks come from paragraph mode or word mode. A zero window step is the `ValueError` of `range`. A negative step gives no chunk. |
| TextChunker.ProcessPage | services/pdf-processor/text_chunker.py:81-127 | `_process_page` normalises the text, then chunks it as `PageChunks` specifies. |
| TextChunker.ChunkPageEntry | services/pdf-processor/text_chunker.py:62-68 | A page whose text is missing, `None` or empty contributes nothing. Any other page contributes its `_process_page` chunks. |
| TextChunker.ChunkBatch | services/pdf-processor/text_chunker.py:59-68 | One batch covers the next `batch_size` sorted pages, or the rest when fewer remain. Their chunks are appended in order. A failing page fails the whole walk with its error. |
| TextChunker.ChunkBatches | services/pdf-processor/text_chunker.py:59-68 | The batch loop yields the same chunks as walking the sorted pages one by one. |
| TextChunker.ChunkPagesFailurePersists | services/pdf-processor/text_chunker.py:56-79 | Once a page fails, the whole document fails with that error. |
| TextChunker.ChunkDocument | services/pdf-processor/text_chunker.py:45-79 | `chunk_document` walks the pages in ascending order and concatenates their chunk lists. A zero batch size is the `ValueError` of `range`. |
| TextChunker.PageResultNumbered | services/pdf-processor/text_chunker.py:61-68 | The chunks of one page are numbered 0, 1, 2, … and carry that page's number. A page that yields chunks has text. |
| TextChunker.ChunkPagesSequenced | services/pdf-processor/text_chunker.py:58-68 | Walking strictly increasing page numbers yields chunks in page order, numbered from 0 on each page. Each chunk comes from a listed page that has text. |
| TextChunker.DocumentChunksOrdered | services/pdf-processor/text_chunker.py:58-68 | A document's chunks come in ascending page order, numbered from 0 on each page. Each comes from a page of the document that has text. |
| NeuralMerger.Scorer.constructor | services/ai-powerhouse-pipelines/src/models/neural_merger/merger.py:7-8 | The scorer's metric names are completeness, coherence and readability. |
| NeuralMerger.Completeness | services/ai-powerhouse-pipelines/src/models/neural_merger/merger.py:15-16 | `completeness` equals `min(words / 100, 1.0)` and lies in `[0, 1]`. |
| NeuralMerger.ScoreText | services/ai-powerhouse-pipelines/src/models/neural_merger/merger.py:10-23 | The metrics are exactly `completeness`, `coherence` (0.8) and `readability` (0.7). `total_score` is their mean, `(completeness + 1.5) / 3`, and lies in `[0.5, 5/6]`. |
| NeuralMerger.ScoreMonotone | services/ai-powerhouse-pipelines/src/models/neural_merger/merger.py:15-21 | More words never lower the score. From 100 words on, the score no longer changes. |
| NeuralMerger.BlankTextScore | services/ai-powerhouse-pipelines/src/models/neural_merger/merger.py:15-21 | Blank text scores exactly one half. |
| NeuralMerger.CombineContent | services/ai-powerhouse-pipelines/src/models/neural_merger/merger.py:61-64 | `max([existing, new], key=len)` returns one of the two strings, no shorter than either. On equal length it returns the existing one. |
| NeuralMerger.MergeInto | services/ai-powerhouse-pipelines/src/models/neural_merger/merger.py:49-57 | Folding one result in gives the union of the page keys. |
| NeuralMerger.MergeAllKeys | services/ai-powerhouse-pipelines/src/models/neural_merger/merger.py:45-57 | A page is in the merged map exactly when some successful result has it. Failures are skipped. |
| NeuralMerger.MergeAllLongest | services/ai-powerhouse-pipelines/src/models/neural_merger/merger.py:49-64 | Every merged page holds the longest text any successful result gave for it, and among equally long texts the earliest. |
| NeuralMerger.MergeAllSingle | services/ai-powerhouse-pipelines/src/models/neural_merger/merger.py:41-59 | No results give an empty map. A single successful map comes back unchanged. |
| NeuralMerger.Merger.constructor | services/ai-powerhouse-pipelines/src/models/neural_merger/merger.py:38-39 | The threshold is 0.7. `MergeResults` never reads it. |
| NeuralMerger.Merger.MergeResults | services/ai-powerhouse-pipelines/src/models/neural_merger/merger.py:41-59 | The loop over results and pages returns exactly `MergeAll(results)`. |
| NeuralMerger.MergePage | services/ai-powerhouse-pipelines/src/models/neural_merger/merger.py:49-57 | The inner loop folds every page of one result into the map, whatever order it visits them in. |
| NeuralMerger.MergeIntoPointwise | services/ai-powerhouse-pipelines/src/models/neural_merger/merger.py:49-57 | Once every page of a result has been folded in, page by page, the map is that result merged in. |
| SmartOrchestrator.Orchestrator.constructor | services/ai-powerhouse-pipelines/src/models/quality_scoring/scorer.py:7-10 | A new orchestrator has no processors, no merger and no scorer. |
| SmartOrchestrator.Orchestrator.RegisterProcessor | services/ai-powerhouse-pipelines/src/models/quality_scoring/scorer.py:12-14 | The processor is stored under its class name, replacing an earlier processor of the same class in place. A new class name goes to the end of the iteration order. |
| SmartOrchestrator.Orchestrator.ProcessorCount | services/ai-powerhouse-pipelines/src/models/quality_scoring/scorer.py:12-14 | The number of processors is the number of distinct class names registered. |
| SmartOrchestrator.DistinctCard | services/ai-powerhouse-pipelines/src/models/quality_scoring/scorer.py:12-14 | A sequence without repetitions has as many elements as its set. This gives the processor count. |
| SmartOrchestrator.Orchestrator.Tasks | services/ai-powerhouse-pipelines/src/models/quality_scoring/scorer.py:21-23 | There is one task per registered processor, in the dictionary's insertion order. |
| SmartOrchestrator.Orchestrator.ProcessDocument | services/ai-powerhouse-pipelines/src/models/quality_scoring/scorer.py:16-36 | With a merger, the result is the merger's output on every outcome, failures included, in task order. Without one, index `i` maps to outcome `i` exactly when outcome `i` succeeded. |
| SmartOrchestrator.CollectByIndex | services/ai-powerhouse-pipelines/src/models/quality_scoring/scorer.py:32-34 | The keys are exactly the indices of the successful outcomes, each mapped to its outcome's value. |
| SummarizerClient.MarkAfter | services/backend-fastapi/api/clients/summarizer_client.py:63 | One `replace(p + ' ', p + '\|')` keeps the length and turns exactly the spaces that follow `p` into `'\|'`. |
| SummarizerClient.Mark | services/backend-fastapi/api/clients/summarizer_client.py:63 | The three replacements keep the length and turn exactly the spaces after `!`, `?` or `.` into `'\|'`. |
| SummarizerClient.Sentences | services/backend-fastapi/api/clients/summarizer_client.py:63 | There is at least one sentence. Joined with `'\|'`, the sentences give the marked text back. No sentence contains `'\|'`. |
| SummarizerClient.SentencesRejoin | services/backend-fastapi/api/clients/summarizer_client.py:63 | For text without `'\|'`, the sentences joined with spaces give the text back. |
| SummarizerClient.SentenceGroupsShape | services/backend-fastapi/api/clients/summarizer_client.py:64-79 | The groups concatenate to the accumulated sentences followed by the rest. Every group is non-empty. A group has more than `chunk_size` words only if it holds a single sentence. |
| SummarizerClient.ChunksCoverSentences | services/backend-fastapi/api/clients/summarizer_client.py:64-81 | At least one chunk is returned. Each chunk is a non-empty run of sentences joined with spaces. The runs concatenate to the sentences, in order. |
| SummarizerClient.OversizedChunk | services/backend-fastapi/api/clients/summarizer_client.py:69-76 | A chunk's word count is the sum of its sentences' word counts. A chunk above `chunk_size` words is a single sentence. |
| SummarizerClient.ChunksGreedy | services/backend-fastapi/api/clients/summarizer_client.py:70-73 | A chunk is closed only when adding the next sentence would take it above `chunk_size` words. |
| SummarizerClient.ChunksRejoin | services/backend-fastapi/api/clients/summarizer_client.py:63-81 | For text without `'\|'`, `' '.join(chunks)` is the text. |
| SummarizerClient.ChunkText | services/backend-fastapi/api/clients/summarizer_client.py:60-81 | The loop returns exactly the specified chunks. |
| SummarizerClient.ChunkTextStep | services/backend-fastapi/api/clients/summarizer_client.py:68-76 | One loop step either closes the current chunk and starts the next with the sentence, or adds the sentence to the current chunk. The chunks still to come match the specification either way. |
| SummarizerClient.ValidateRequest | services/backend-fastapi/api/clients/summarizer_client.py:14-28 | A request is accepted exactly when the text is not blank and `max_length` lies in `[1,1000]`, `min_length >= 1`, `num_beams` in `[1,8]` and `length_penalty` in `[0,5]` (a null passes). The stored text is the stripped text. The defaults are 130, 30, False, `facebook/bart-large-cnn`, 4 and 2.0. A rejection names the text exactly when it is blank. |
| SummarizerClient.AcceptedRequestBounds | services/backend-fastapi/api/clients/summarizer_client.py:17-22 | Every non-null field of an accepted request lies within its declared bounds. |
| TextProcessor.ValidateText | services/transformers-summarizer/core/processors/text_processor.py:13-32 | Empty or blank text raises. Otherwise the result is the prefix `text.strip()[:max_length]`. It is the whole stripped text when that fits, and Python's negative-bound slice when `max_length` is negative. |
| TextProcessor.ValidatedNonEmpty | services/transformers-summarizer/core/processors/text_processor.py:20-29 | With `max_length >= 1`, a non-blank text validates to a non-empty string. |
| TextProcessor.BatchProcessTexts | services/transformers-summarizer/core/processors/text_processor.py:59-68 | The batch succeeds exactly when no text is blank. The result then has the same length and is `validate_text` element-wise. |
| TextProcessor.CapitalizeSentences | services/transformers-summarizer/core/processors/text_processor.py:46 | The substitution keeps the text empty exactly when it was, keeps its first character, and keeps whether it ends in whitespace. |
| TextProcessor.CapitalizeSentencesVisible | services/transformers-summarizer/core/processors/text_processor.py:46 | The substitution changes only spacing and letter case: the non-whitespace characters of the result, upper-cased, are those of the input, in order. |
| TextProcessor.CapitalizeSentencesCapitalized | services/transformers-summarizer/core/processors/text_processor.py:46 | After the substitution, every word character that follows sentence punctuation (and optional spaces) is upper-case and preceded by exactly one space. |
| TextProcessor.CapitalizeSentencesSingleSpaced | services/transformers-summarizer/core/processors/text_processor.py:46 | The substitution never creates two consecutive spaces. |
| TextProcessor.CapitalizeFirst | services/transformers-summarizer/core/processors/text_processor.py:47-48 | Only the first character changes, to its upper-case form. |
| TextProcessor.EndSentence | services/transformers-summarizer/core/processors/text_processor.py:51-52 | A `.` is appended exactly when the text is non-empty and does not already end in `.`, `!` or `?`. A non-empty result ends in sentence punctuation. |
| TextProcessor.CleanOutputEmpty | services/transformers-summarizer/core/processors/text_processor.py:43-54 | `clean_output` gives `""` exactly for empty or whitespace-only input. |
| TextProcessor.CleanOutputShape | services/transformers-summarizer/core/processors/text_processor.py:43-54 | A non-empty cleaned summary starts with a non-lower-case character and ends in `.`, `!` or `?`. It has no whitespace at the ends and never two consecutive whitespace characters. Every word character after sentence punctuation is capitalised and preceded by one space. |
| TextProcessor.CleanOutputVisible | services/transformers-summarizer/core/processors/text_processor.py:43-54 | Ignoring spacing and letter case, the cleaned summary reads exactly as the input, followed by a `.` exactly when the input has text and its last non-whitespace character is not `.`, `!` or `?`. |
| TextProcessor.CleanedShape | services/transformers-summarizer/core/processors/text_processor.py:46-52 | The three clean-up steps on trimmed, single-spaced text give the shape that `CleanOutputShape` states. |
| TextProcessor.CapitalizeFirstPreserves | services/transformers-summarizer/core/processors/text_processor.py:47-48 | Capitalising the first letter keeps the text trimmed, single-spaced and sentence-capitalised. |
| TextProcessor.EndSentencePreserves | services/transformers-summarizer/core/processors/text_processor.py:51-52 | Appending the final `.` keeps the text trimmed, single-spaced and sentence-capitalised. |
| TextProcessor.BatchCleanSummaries | services/transformers-summarizer/core/processors/text_processor.py:70-79 | The result has the same length and is `clean_output` element-wise. |
| OcrExtraction.NonBlank | services/neural-ocr-tesseract/text_extraction.py:93 | A word is kept exactly when it is one of the entries and is not blank. The result is never longer than the input. All entries are kept when none is blank, and none when all are. |
| OcrExtraction.RunTesseract | services/neural-ocr-tesseract/text_extraction.py:91-95 | The text is the non-blank words joined by single spaces. The confidence is the mean of the `conf` list, or 0.0 for an empty list. |
| OcrExtraction.TesseractConfidenceBounds | services/neural-ocr-tesseract/text_extraction.py:94 | The mean confidence lies between any bounds of the individual confidences. |
| OcrExtraction.CombinedConf | services/neural-ocr-tesseract/text_extraction.py:80 | `combined_conf * (1 + n)` equals the Tesseract confidence plus the sum of the layout confidences. |
| OcrExtraction.CombinedConfBounds | services/neural-ocr-tesseract/text_extraction.py:80 | `combined_conf` lies between any common bounds of its inputs. It is the Tesseract confidence when there are no layout boxes. |
| OcrExtraction.KeptBoxes | services/neural-ocr-tesseract/text_extraction.py:38-47 | Only boxes scoring above 0.5 are kept, with their score as confidence. All are kept, in order, when all score above 0.5, and none when none does. |
| OcrExtraction.KeptBoxesComplete | services/neural-ocr-tesseract/text_extraction.py:38-47 | On any mix of scores, every box scoring above 0.5 is kept, paired with its own score. |
| OcrExtraction.KeptBoxesSound | services/neural-ocr-tesseract/text_extraction.py:38-47 | Every kept entry is one of the (box, score) pairs that `zip` forms. |
| OcrExtraction.ProcessImage | services/neural-ocr-tesseract/text_extraction.py:28-49 | `zip` stops at the shorter list. `layout_info` holds the kept boxes. `text_boxes` has the same length, and entry `k` is the text read from box `k`. Every kept confidence is above 0.5. |
| OcrExtraction.StripEach | services/neural-ocr-tesseract/text_extraction.py:103-104 | Each piece is stripped, one for one. |
| OcrExtraction.AllPiecesMembers | services/neural-ocr-tesseract/text_extraction.py:99-104 | A piece is gathered exactly when it is a stripped `'.'`-piece of one of the texts passed in. |
| OcrExtraction.TextSentencesMembers | services/neural-ocr-tesseract/text_extraction.py:99-106 | The set gathered is exactly the non-empty stripped `'.'`-pieces of the inputs. |
| OcrExtraction.TextSentencesClean | services/neural-ocr-tesseract/text_extraction.py:103-106 | Every gathered sentence is non-empty, stripped and free of `'.'`. |
| OcrExtraction.AddSentences | services/neural-ocr-tesseract/text_extraction.py:103-106 | The inner loop adds exactly the non-empty stripped pieces of one text. |
| OcrExtraction.Enumerate | services/neural-ocr-tesseract/text_extraction.py:108 | Some order lists every element of the set exactly once. |
| OcrExtraction.MergeResults | services/neural-ocr-tesseract/text_extraction.py:97-108 | The output is `'. '.join` of an order, left open, that lists every gathered sentence exactly once. |
| OcrExtraction.MergedPieces | services/neural-ocr-tesseract/text_extraction.py:108 | Splitting the joined output on `'.'` and stripping each piece gives back the listed sentences. No sentences give `""`. |
| OcrExtraction.MergeResultsSentences | services/neural-ocr-tesseract/text_extraction.py:97-108 | Without any non-empty sentence the output is `""`. Otherwise the stripped `'.'`-pieces of the output are the distinct sentences, each once. |
| Scores.Clamp | services/pdf-processor/src/parallel_processors/text_extractor.py:62 | `max(0.1, min(score, 1.0))` lies in `[0.1, 1]` and is the score itself inside that range. |
| Scores.ClampMonotone | services/neural-ocr-tesseract/src/parallel_processing/ocr_worker.py:145 | Clamping preserves order. |
| Scores.AlphaRatio | services/pdf-processor/src/parallel_processors/text_extractor.py:58 | The alphabetic ratio is the share of alphabetic characters, in `[0, 1]`, and 0 for empty text. |
| ParallelTextExtractor.NewExtractor | services/pdf-processor/src/parallel_processors/text_extractor.py:10-12 | The default `min_text_length` is 50. |
| ParallelTextExtractor.Confidence | services/pdf-processor/src/parallel_processors/text_extractor.py:40-62 | Blank text scores 0.0. Any other text scores within `[0.1, 1]`. |
| ParallelTextExtractor.ConfidenceIsProduct | services/pdf-processor/src/parallel_processors/text_extractor.py:46-62 | For non-blank text, the score is the product of the length (0.5), word-count (0.7) and alphabetic-ratio (0.8) penalties. That product is at least 0.28, so the lower clamp never binds. |
| ParallelTextExtractor.GoodTextScoresOne | services/pdf-processor/src/parallel_processors/text_extractor.py:46-62 | Text long enough, with at least 10 words and an alphabetic ratio of at least 0.5, scores exactly 1.0. |
| ParallelTextExtractor.ProcessPage | services/pdf-processor/src/parallel_processors/text_extractor.py:14-34 | The result carries the processor name, the page number, the text and its confidence. `text_length` is the text length, `word_count` the number of split words, and `extraction_method` is `native_pdf`. The confidence is zero exactly when there are no words. |
| OcrWorker.TextScore | services/neural-ocr-tesseract/src/parallel_processing/ocr_worker.py:131 | `min(1.0, words / 100)` lies in `[0, 1]`. |
| OcrWorker.RawScore | services/neural-ocr-tesseract/src/parallel_processing/ocr_worker.py:135-143 | For an OCR confidence in `[0, 1]`, `0.6·conf + 0.2·text_score + 0.2·alpha_ratio` lies in `[0, 1]`. |
| OcrWorker.Confidence | services/neural-ocr-tesseract/src/parallel_processing/ocr_worker.py:125-145 | Blank text scores 0.0. Any other text scores within `[0.1, 1]`. |
| OcrWorker.ConfidenceMonotone | services/neural-ocr-tesseract/src/parallel_processing/ocr_worker.py:139-145 | A higher OCR confidence never lowers the score. |
| OcrWorker.UpperClampIdle | services/neural-ocr-tesseract/src/parallel_processing/ocr_worker.py:139-145 | For an OCR confidence in `[0, 1]`, the raw score is already at most 1, so only the lower clamp can apply. |
| OcrWorker.NewWorker | services/neural-ocr-tesseract/src/parallel_processing/ocr_worker.py:12-19 | The defaults are the `ocr-tesseract:8004` URL, `eng` and 300 dpi. |
| OcrWorker.GetOr | services/neural-ocr-tesseract/src/parallel_processing/ocr_worker.py:53 | `dict.get(key, default)` is the value when present and the default otherwise. |
| OcrWorker.ToResult | services/neural-ocr-tesseract/src/parallel_processing/ocr_worker.py:98-111 | An answer without `text` is the `KeyError`. Otherwise the result has the page number, the text, the confidence (0.5 when missing), the worker's language and dpi, and the detected languages (`[]` when missing). |
| OcrWorker.ProcessPage | services/neural-ocr-tesseract/src/parallel_processing/ocr_worker.py:47-62 | A page answer converts like a batch entry, under the processor name `ocr_worker`. |
| OcrWorker.ConvertBatchKeys | services/neural-ocr-tesseract/src/parallel_processing/ocr_worker.py:96-102 | The converted batch has an entry exactly for the parsed keys. Each entry's `page_number` equals its key, and it comes from the last item with that key. |
| OcrWorker.ConvertBatchErr | services/neural-ocr-tesseract/src/parallel_processing/ocr_worker.py:96-102 | The conversion fails exactly when some key is not an integer or some answer has no `text`. |
| OcrWorker.ConvertBatchErrSticky | services/neural-ocr-tesseract/src/parallel_processing/ocr_worker.py:96-117 | A failure in a prefix of the batch is the failure of the whole batch. |
| OcrWorker.ProcessDocument | services/neural-ocr-tesseract/src/parallel_processing/ocr_worker.py:93-113 | The conversion loop returns exactly `ConvertBatch`. |
| PdfTextExtractor.NewExtractor | services/pdf-processor/text_extractor.py:16-19 | A falsy (`None` or 0) `min_text_length` falls back to the settings value. Image extraction and quality come from the settings. |
| PdfTextExtractor.ImageMetasFields | services/pdf-processor/text_extractor.py:66-84 | Each recorded image is an embedded image of the page, recorded with its own position as `index` and its extension, size and dimensions. The indices strictly increase. |
| PdfTextExtractor.ImageMetasComplete | services/pdf-processor/text_extractor.py:66-84 | Every embedded image whose reference resolves is recorded. |
| PdfTextExtractor.ExtractPageImages | services/pdf-processor/text_extractor.py:62-90 | The image loop records every embedded image in order and passes over empty references. Any exception discards everything and yields `[]`. |
| PdfTextExtractor.PageContentOf | services/pdf-processor/text_extractor.py:38-51 | `has_images` holds exactly when the page has images. `needs_ocr` holds exactly when the stripped text is shorter than `min_text_length` and the page has images. `images` is present exactly when image extraction is on and the page has images. |
| PdfTextExtractor.FirstBroken | services/pdf-processor/text_extractor.py:36-60 | It finds the first page whose reading raises, or reports that every page reads. |
| PdfTextExtractor.ExtractionShape | services/pdf-processor/text_extractor.py:32-60 | A document that cannot be opened, or the first page that fails, becomes `PDFExtractionError("Failed to process PDF: ...")`. Otherwise the result keys are exactly `0..page_count-1`, and each entry is that page's content. |
| PdfTextExtractor.ExtractionCount | services/pdf-processor/text_extractor.py:36-53 | The result has one entry per page. |
| PdfTextExtractor.ExtractText | services/pdf-processor/text_extractor.py:22-60 | The page loop returns exactly `Extraction`. |
| PdfService.PdfNameIgnoresCase | services/pdf-processor/main.py:142 | The `.pdf` check ignores case: `.pdf`, `.PDF` and `.Pdf` all pass. |
| PdfService.NeedingOcr | services/pdf-processor/main.py:86-89 | The OCR page list holds exactly the listed pages whose `needs_ocr` is set. |
| PdfService.OcrPages | services/pdf-processor/main.py:86-89 | `ocr_pages` holds exactly the extracted pages that need OCR. |
| PdfService.MergeOcrShape | services/pdf-processor/main.py:96-97 | The merge-back succeeds exactly when every OCR page is a page of the extraction, and then keeps the page set. Each page gets the last OCR text for it and is otherwise unchanged. A failure names an OCR page the extraction lacks (the `KeyError`). |
| PdfService.MergeOcrResults | services/pdf-processor/main.py:96-97 | The merge-back loop returns exactly `MergeOcr`. |
| PdfService.MergeOcrErrSticky | services/pdf-processor/main.py:96-97 | A `KeyError` part-way through ends the merge with that error. |
| PdfService.LastOcrTextFrom | services/pdf-processor/main.py:96-97 | A page's merged OCR text comes from an OCR item for that page. |
| PdfService.PagesOf | services/pdf-processor/main.py:100 | The chunker sees exactly the extracted pages, each with its (possibly OCR-replaced) text. |
| PdfService.AfterOcrFrame | services/pdf-processor/main.py:91-97 | The OCR step keeps the page set. It changes nothing when no page needs OCR, and otherwise merges the OCR answer page by page. |
| PdfService.OutcomeCounts | services/pdf-processor/main.py:103-110 | A stored result names its task. `page_count` is the number of pages and `chunk_count` the number of chunks of the merged content. The content holds exactly pages `0..n-1`. |
| PdfService.OutcomeOcrUsed | services/pdf-processor/main.py:108 | `ocr_used` holds exactly when some page of the document needed OCR. |
| PdfService.OutcomePages | services/pdf-processor/main.py:86-110 | Without OCR, every stored page is as extracted. With OCR, each page carries the last text the OCR answer gave for it and is otherwise as extracted. |
| PdfService.OutcomeUnfold | services/pdf-processor/main.py:83-110 | A stored result is the extraction followed by the OCR step, the chunking and the summary. |
| PdfService.Finish | services/pdf-processor/main.py:112-120 | Success marks the processing task COMPLETED with its result. Failure marks it FAILED with its error. Nothing else in the processing task changes. |
| PdfService.PdfService.constructor | services/pdf-processor/main.py:64 | The processing task table starts empty. |
| PdfService.PdfService.Upload | services/pdf-processor/main.py:133-188 | Uploads are rejected in this order, each leaving the table as it was: a name not ending in `.pdf` (any case) gives 400; a size above the maximum gives 400 with the limit in MB, while a size equal to the maximum passes; a failed save gives 500. Otherwise the processing task is added as QUEUED and the response says so. |
| PdfService.PdfService.ProcessPdf | services/pdf-processor/main.py:76-123 | Processing moves the processing task through PROCESSING. It ends COMPLETED with the pipeline's result, or FAILED with the error. No other task changes. |
| PdfService.PdfService.RunPipeline | services/pdf-processor/main.py:83-112 | The pipeline's steps return exactly `Outcome`. |
| PdfService.PdfService.GetStatus | services/pdf-processor/main.py:190-195 | An unknown task is 404. A known one returns its stored status. |
| PdfService.PdfService.GetResult | services/pdf-processor/main.py:197-210 | An unknown task is 404. A task not COMPLETED is 400 with its status. A completed task returns its stored result, which is always present. |
| PdfService.UploadThenProcess | services/pdf-processor/main.py:133-188 | A client check of the two-state contracts of `Upload`, `ProcessPdf` and `GetResult`, with no counterpart in the source. After an accepted upload and its processing, the processing task is COMPLETED or FAILED. Fetching the result succeeds exactly when the pipeline did, and returns that result. |
| ProgressTracker.Percentage | services/pdf-processor/utils.py:136 | `current / total * 100` is a `ZeroDivisionError` exactly when the total is zero. Otherwise `result · total = current · 100`. |
| ProgressTracker.PercentageAtTotal | services/pdf-processor/utils.py:136 | The percentage is exactly 100 when the count reaches the total. Nothing caps it above 100, and it lies in `[0, 100]` while the count is within range. |
| ProgressTracker.ProgressTracker.constructor | services/pdf-processor/utils.py:126-129 | A new tracker has `current_step = 0`. |
| ProgressTracker.ProgressTracker.Update | services/pdf-processor/utils.py:131-136 | `update(n)` adds `n` to the count, even when the division then raises, and returns the percentage of the new count. |
| ProgressTracker.ProgressTracker.GetEta | services/pdf-processor/utils.py:138-148 | There is no estimate before the first step. Zero elapsed time with steps done is a `ZeroDivisionError`. Otherwise there is an estimate exactly when the rate is positive, and `eta · current = (total − current) · elapsed`. |
| ProgressTracker.ProgressTracker.EtaAtEnd | services/pdf-processor/utils.py:145-148 | Once every step is done, the estimate is 0 seconds. |
| ProgressTracker.EtaFormula | services/pdf-processor/utils.py:146-148 | Dividing the remaining steps by the rate `current / elapsed` gives `remaining · elapsed / current`. |
| ProgressTracker.RunToCompletion | services/pdf-processor/utils.py:126-136 | A client check of the contracts of the constructor and `Update`, with no counterpart in the source. From a new tracker, `total` calls of `update()` with its default of one step end with the count at the total and report exactly 100. |
| AuthMiddleware.NewMiddleware | services/backend-fastapi/api/middleware/auth_middleware.py:10-12 | The algorithm defaults to HS256. |
| AuthMiddleware.RequestState.constructor | services/backend-fastapi/api/middleware/auth_middleware.py:76 | A fresh request has no user. |
| AuthMiddleware.Call | services/backend-fastapi/api/middleware/auth_middleware.py:15-68 | The response is the decision of the check sequence. `request.state.user` is set exactly when the token decoded and is otherwise left alone. |
| AuthMiddleware.ForwardedOnlyIfAuthenticated | services/backend-fastapi/api/middleware/auth_middleware.py:18-57 | A request reaches the next handler (which then answered) only on a public path, or with a two-word `bearer` header (any case) whose token decodes and has not expired. The payload is then stored. |
| AuthMiddleware.RefusalCodes | services/backend-fastapi/api/middleware/auth_middleware.py:22-68 | On a non-public path: a missing or empty header is 401; a header that does not split into two words is 500 (the caught unpacking error); a non-bearer scheme is 401. A payload is stored only when the token decoded. |
| AuthMiddleware.ExpiryBoundary | services/backend-fastapi/api/middleware/auth_middleware.py:49-50 | `exp == now` is accepted. An absent or zero `exp` is never checked. A truthy `exp` before now is expired. |
| AuthMiddleware.RequiresScope | services/backend-fastapi/api/middleware/auth_middleware.py:75-89 | Without a request or a stored user it is 401. Otherwise it passes exactly when the required scope is in the user's `scopes` (default `[]`), and is 403 when not. |
| AuthMiddleware.NoScopesClaim | services/backend-fastapi/api/middleware/auth_middleware.py:82-87 | A token without a `scopes` claim fails every scope check with 403. |
| DomainTypes.ParseStatus | services/backend-fastapi/domain/types.py:8-14 | A status is read exactly from one of the five values, and it has that value. |
| DomainTypes.StatusRoundTrip | services/backend-fastapi/domain/types.py:8-14 | Every status reads back from its value, and the five values are distinct. |
| DomainTypes.ParseProcessor | services/backend-fastapi/domain/types.py:16-22 | A processor type is read exactly from one of the five values, and it has that value. |
| DomainTypes.ProcessorRoundTrip | services/backend-fastapi/domain/types.py:16-22 | Every processor type reads back from its value, and the five values are distinct. |
| DomainTypes.ParseExport | services/backend-fastapi/domain/types.py:31-38 | An export format is read exactly from one of the six values, and it has that value. |
| DomainTypes.ExportRoundTrip | services/backend-fastapi/domain/types.py:31-38 | Every export format reads back from its value. |
| DomainTypes.ParseEachShape | services/backend-fastapi/domain/types.py:42-45 | A list is read exactly when each of its strings is. The result then reads them position by position. |
| DomainTypes.ParseProcessorsShape | services/backend-fastapi/domain/types.py:42-45 | A processor list is accepted exactly when every entry is a processor value. Each member then has its entry as its value. |
| DomainTypes.ValidateOptions | services/backend-fastapi/domain/types.py:40-63 | Options are accepted exactly when no field fails. An accepted `quality_threshold` lies in `[0, 1]`. The defaults are 0.7, `[TEXT_EXTRACTION]`, parallel, PDF export and layout preserved. A given field is stored as given: each processor and the export format carry the given string as their value, and the flags and the threshold are the given values. |
| DomainTypes.OptionsDefaults | services/backend-fastapi/domain/types.py:40-63 | With nothing given, all defaults apply and are accepted. |
| DomainTypes.ValidateResult | services/backend-fastapi/domain/types.py:65-72 | A result is accepted exactly when no field fails. The confidence then lies in `[0, 1]`. The processor type, confidence, text and page number are stored as given. A given metadata map or bounding-box list is stored as given. Omitted metadata defaults to `{}` and omitted bounding boxes to `None`. |
| DomainTypes.ConfidenceOutOfRange | services/backend-fastapi/domain/types.py:68 | A confidence above 1 or below 0 is refused, naming `confidence_score`. |
| DomainModels.Validate | services/backend-fastapi/domain/models.py:5-17 | A request is accepted exactly when the text has at least 10 characters and is not blank, and every numeric field lies in its range. The stored text is stripped. The defaults are 300, 100, 4, 2.0 and no model name. |
| DomainModels.AcceptedRequestBounds | services/backend-fastapi/domain/models.py:8-11 | An accepted request has `max_length` in `(0, 1000]`, `min_length` in `(0, 500]`, `num_beams` in `(0, 8]` and `length_penalty` in `[0, 5]` (when not null). |
| DomainModels.RequestDefaults | services/backend-fastapi/domain/models.py:6-11 | A valid text with nothing else given takes every default. |
| DomainModels.StoredTextMayBeShort | services/backend-fastapi/domain/models.py:6-17 | The length minimum applies before stripping: `"a"` followed by nine spaces is accepted and stored as `"a"`. |
| DomainModels.MinAboveMaxAccepted | services/backend-fastapi/domain/models.py:8-9 | No constraint relates the two lengths: `min_length = 500` with `max_length = 1` is accepted. |
| Fields.Resolve | services/backend-fastapi/domain/models.py:7-11 | An omitted field takes its default. A given field, including an explicit null, is taken as given. |
| Fields.GivenValue | services/backend-fastapi/domain/types.py:67-72 | A required field has a value exactly when it is given and not null. |

## Left out

- Character classes: Python's Unicode `isalpha`, `isupper`, `\w` and `\s` are modelled as their ASCII subsets. `capitalize()` and `upper()` change only ASCII letters.
- Floating point: confidences, scores, percentages and times are exact `real`s. For example, `0.5·0.7·0.8` is exactly 0.28.
- I/O: file reads and writes are not modelled. This covers saving uploads and results, moving failed files, `_save_image`, and the chunker's `_cache_chunks`, which also uses names it never imports. Their outcomes are inputs where they change control flow: the save error of an upload or a result.
- HTTP and external services: the OCR service call, the transformer service, the retry decorators and clients, and the FastAPI routing are left out. The OCR worker's answers, the OCR processor's page texts and the next handler of the middleware are given values.
- Libraries: PyMuPDF, PIL, Tesseract and the layout model are not modelled. Their outputs are parameters: page text, image references, word and confidence lists, boxes and scores. `jwt.decode` is a given function. A decode that raises something other than `JWTError` (a 500) is not modelled.
- Concurrency: `asyncio.gather`, the background task, the thread pool and `await` are left out. The orchestrator receives the gathered outcomes as a sequence in task order. The background processing runs as the next step after an upload.
- Clock and randomness: `datetime.now()`, `utcnow()` and `uuid4()` are not modelled. The elapsed seconds, the current time and the new task id are parameters, and timestamps are not part of the records.
- OcrExtraction.MergeResults: the order of a Python `set` is left open. The output is proved to list each sentence exactly once in some order, not in the order CPython would iterate.
- PdfService.Finish: the processing task stores the failure as a structured value rather than the text of `str(e)`.
- PdfService.PdfService.Upload: the HTTP response fields other than the processing task id, status and message (the JSON envelope and headers) are not modelled.
- Pydantic coercion: strings are not converted to numbers, or numbers to strings. A field has exactly the type it is declared with, may be omitted or null, and is checked against its declared bounds.
- Other records: `DocumentMetadata`, `ProcessingSummary` and the other records of `types.py` have no behaviour and are not part of this model. Neither are the pipeline glue that calls methods the shown classes lack, nor the settings loaders.
- `utils.py`: apart from `ProgressTracker`, the file's `Cache`, `PDFUtilities` and `ErrorHandler` are file I/O helpers and are not part of this model.
- AuthMiddleware.RequiresScope: a `scopes` claim that is a string rather than a list is not modelled. Python's `in` would then test for a substring; the model takes `scopes` to be a list of strings.
- OcrWorker.ToResult: a `confidence` key that is present but null is not modelled. `dict.get` would then return `None`, not 0.5; the model reads a missing key as 0.5 and a present key as a number.
- DomainTypes.DocumentTypeValue: `DocumentType` is modelled as an enumeration only. No record in the modelled files validates it.
