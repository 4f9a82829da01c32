# Document question answering: a verified model of the ingestion and answering core

The system answers natural-language questions about uploaded PDF, Word (`.docx`) and
Excel (`.xlsx`) documents. Its core, modelled here, has three parts:

- **`DocumentProcessor`** (`src/utils/document_processor.py`).
  - It picks an extractor by the file's lower-cased extension.
  - It builds one `extracted_text` per document, with page, table and sheet separators.
  - It cuts every non-blank page, paragraph, table, sheet header and data row into chunks with `_create_chunks`.
  - `_create_chunks` strips the text, is meant to collapse its whitespace runs (as written it does not; see "Findings"), and drops texts shorter than 50 characters.
  - It splits the text on runs of `.`, `!` and `?`, then packs the sentences greedily into chunks of about 500 characters.
- **`VectorStore`** (same file). An in-memory collection of chunk records.
  - Record ids have the form `doc_<document>_chunk_<i>`.
  - A search returns the nearest records to a query embedding, optionally only those of one document.
  - It can delete all records of a document.
- **`QuestionAnsweringService`** (`src/utils/qa_service.py`). It retrieves the 10 nearest chunks.
  - It keeps, in rank order, those closer than 0.7 whose texts fit a 2000-character budget.
  - It reads the question's intent from fixed cue phrases: definition, quantity, date, location, person, reason, process, or general.
  - It quotes one to three sentences of the joined context chosen by that intent's rule, or falls back to the first 300 characters.
  - It reports a confidence: the mean similarity times 1.2, capped at 1 and rounded to three places.
  - It reports a source entry for every chunk used.

## Modules

- `wrappers.dfy`: `Option` and `Result`.
- `text.dfy`: the Python string operations the core relies on. These are `str.strip` (with the `str.isspace` character set), `lower`, `in` as substring search, `join` and `re.split(r'[.!?]+', …)`. There are also slicing, and decimal rendering of integers.
- `sequences.dfy`: generic facts about sequences, and the subsequence relation.
- `chunker.dfy`: `_create_chunks`. `ChunkedText` is the greedy grouping specification of the chunks of a normalised text. `Chunked` applies it after the corrected normalisation and `ChunkedAsWritten` after the normalisation as written. `CreateChunks` is the loop proved equal to `Chunked`.
- `extraction.dfy`: `is_supported_format`, `process_document`, `_process_pdf`, `_process_docx`, `_process_xlsx` and `_extract_table_text`. The parsed document is given as values: page texts, paragraphs and tables of cell texts, and sheets of column names and rows of optional cell texts.
- `vector_index.dfy`: the `VectorStore` class over a sequence of records, and the specification functions its methods are proved against.
- `synthesis.dfy`: `_generate_answer` and the eight `_extract_*` strategies.
- `question_answering.dfy`: `answer_question`, including context selection, confidence, sources and the error paths.

Where the written description of the system and the code differ, the model follows the code, except for the three defects listed under "Findings". For each of those, the code as written is modelled and shown to differ, and the rest of the model uses the corrected definition. In particular `Chunked`, `CreateChunks` and every extractor (`ProcessPdf`, `ProcessDocx`, `ProcessXlsx`, `ProcessDocument`) chunk with the corrected normalisation `Normalize`. `_create_chunks` exactly as written is `ChunkedAsWritten`. The two differ on ordinary input. As written, the line breaks of a PDF page stay in its chunks. Whitespace runs also count toward the 50-character threshold: two words of 15 letters with 25 tabs between them make 55 characters and are chunked as written, but normalise to 31 characters and give no chunk in the corrected model. The well-formedness and sentence-keeping lemmas are proved for `ChunkedText`, so they hold for both.

Other differences between the description and the code:

- A chunk made of several sentences can be 501 characters long, not at most 500. The flush test compares the buffer length plus the sentence length with 500, leaving out the joining space. `Chunker.FittedGroupBound` states the bound the code actually keeps.
- The separators in `extracted_text` (`"\\n\\n--- Page 1 ---\\n\\n"` and the like) are written in the source with doubled backslashes. They therefore hold a backslash followed by `n`, not a line break, and are modelled that way.
- The XLSX 100-row cap applies to the extracted text as well as to the chunks, since both are produced in the same loop.

## Model

| member | source | states |
|---|---|---|
| Text.StripSlice | src/utils/document_processor.py:173 | `strip()` returns the slice of the input left after removing whitespace at both ends, and that slice neither starts nor ends with whitespace; together this determines the result |
| Text.SplitReassembles | src/utils/document_processor.py:169 | the pieces of `re.split(r'[.!?]+', s)` with the removed runs put back between them give `s` again; there is one piece more than there are runs; only the first and last piece can be empty |
| Text.SeparatorsAreRuns | src/utils/document_processor.py:169 | the runs cut out between the pieces are non-empty and consist of `.`, `!` and `?` only |
| Text.SplitPiecesHaveNoTerminator | src/utils/document_processor.py:169 | no piece of the split contains a terminator |
| Text.StripEmpty | src/utils/document_processor.py:173 | the stripped text is empty exactly when every character of the input is whitespace |
| Text.ParseNatToString | src/utils/document_processor.py:242 | the decimal rendering of a chunk index parses back to the same number |
| Text.IntToStringInjective | src/utils/document_processor.py:242 | two document ids with the same decimal rendering are equal |
| Chunker.NormalizeJoinsWords | src/utils/document_processor.py:161 | the corrected normalisation is `" ".join(s.split())`: the input's maximal non-whitespace runs, in order, separated by single spaces, with nothing at the ends |
| Chunker.NormalizeAsWrittenIsStrip | src/utils/document_processor.py:161 | as written, the normalisation of any text without a backslash is plain `strip()`: no whitespace run is collapsed |
| Chunker.NormalizeAsWrittenKeepsTabs | src/utils/document_processor.py:161 | as written, `"a\t\tb"` comes back unchanged, so whitespace runs are not collapsed |
| Chunker.NormalizeAsWrittenReplacesBackslashS | src/utils/document_processor.py:161 | as written, the literal text backslash-`s` is replaced by a space |
| Chunker.Sentences | src/utils/document_processor.py:169-175 | the sentences the loop uses are non-empty and stripped |
| Chunker.GroupingFlatten | src/utils/document_processor.py:172-196 | the chunks' sentences, read in order, are exactly the sentences of the text: none lost, duplicated or reordered |
| Chunker.GroupingFits | src/utils/document_processor.py:178 | every sentence added to a non-empty buffer fitted: buffer length plus sentence length is at most 500 |
| Chunker.GroupingClosedWhenFull | src/utils/document_processor.py:178-185 | a chunk is closed only because the next sentence would not fit |
| Chunker.GroupingIsGreedy | src/utils/document_processor.py:172-196 | the grouping is greedy: it covers the sentences in order, every group is non-empty, every addition fitted, every flush was forced, and multi-sentence chunks are at most 501 characters |
| Chunker.FittedGroupBound | src/utils/document_processor.py:178-187 | a chunk of two or more sentences is at most 501 characters long |
| Chunker.JoinFlatten | src/utils/document_processor.py:187 | joining the chunk texts with spaces gives the sentences joined with spaces |
| Chunker.ChunksOfWellFormed | src/utils/document_processor.py:179-184 | chunks built from non-empty groups are well formed |
| Chunker.ChunkedTextWellFormed | src/utils/document_processor.py:163-196 | whatever text the normalisation line produced, every chunk is non-empty and stripped, carries the given page number and section type, and records its own length |
| Chunker.ChunkedTextKeepsSentences | src/utils/document_processor.py:163-198 | whatever text of 50 characters or more the normalisation line produced, the chunk texts joined with spaces are its sentences joined with spaces |
| Chunker.ChunkedAsWrittenOnlyStrips | src/utils/document_processor.py:158-198 | as written, `_create_chunks` of a backslash-free text chunks the merely stripped text: its line breaks and tab runs stay in the chunks and count toward the 50-character threshold |
| Chunker.ChunkedWellFormed | src/utils/document_processor.py:179-196 | with the corrected normalisation, every chunk is non-empty and stripped, carries the given page number and section type, and records its own length |
| Chunker.ChunkedKeepsSentences | src/utils/document_processor.py:158-198 | with the corrected normalisation, for a normalised text of 50 characters or more, the chunk texts joined with spaces are its sentences joined with spaces |
| Chunker.ChunkedOversizedIsOneSentence | src/utils/document_processor.py:178-187 | a chunk longer than 501 characters is a single sentence of the text, never split |
| Chunker.PackStep | src/utils/document_processor.py:177-187 | one loop step either flushes the buffer as a chunk and restarts it with the sentence, or appends the sentence with a space, in agreement with the greedy grouping |
| Chunker.PackFinish | src/utils/document_processor.py:189-196 | flushing a non-empty final buffer gives one chunk per group |
| Chunker.CreateChunks | src/utils/document_processor.py:158-198 | with the corrected normalisation, the loop returns exactly the greedy chunking, nothing for a normalised text shorter than 50 characters, and well-formed chunks |
| Extraction.LastIndexOf | src/utils/document_processor.py:18 | the index returned holds the character and no later index does; none means the character is absent |
| Extraction.Extension | src/utils/document_processor.py:18 | `os.path.splitext`'s extension is empty or a suffix of the path made of a dot and then neither dots nor slashes |
| Extraction.ExtensionOfName | src/utils/document_processor.py:18 | a file name with a stem that is not all dots has exactly its final extension |
| Extraction.HiddenNameHasNoExtension | src/utils/document_processor.py:18 | a name whose stem is only dots, such as `.pdf`, has no extension |
| Extraction.LowerKeepsDotsAndSlashes | src/utils/document_processor.py:18 | lower-casing changes no dot or slash and creates none |
| Extraction.SupportedFormatOfName | src/utils/document_processor.py:14-19 | a name is supported exactly when its lower-cased extension is `.pdf`, `.docx` or `.xlsx`, whatever its case |
| Extraction.ProcessPdf | src/utils/document_processor.py:51-78 | the loop over pages yields the separated text of the non-blank pages, their chunks in page order, and the page count |
| Extraction.PdfChunksTagged | src/utils/document_processor.py:57-66 | every PDF chunk is tagged `page` with the 1-based number of a non-blank page, chunk page numbers never decrease, and every chunk is non-empty, stripped and records its length |
| Extraction.PageTaggedAppend | src/utils/document_processor.py:66 | appending a new page's chunks keeps the tags right and in page order |
| Extraction.ExtractTableText | src/utils/document_processor.py:150-156 | the table text is each row's stripped cells joined by `" | "`, each line followed by the row terminator |
| Extraction.TableTextBlank | src/utils/document_processor.py:150-156 | a table's text is blank exactly when the table has no rows, so every table with a row is written out |
| Extraction.ProcessParagraphs | src/utils/document_processor.py:86-90 | the paragraph loop yields the text and chunks of the non-blank paragraphs, in order |
| Extraction.ProcessTables | src/utils/document_processor.py:92-98 | the table loop appends each non-blank table under its 1-based number, and its chunks, after what came before |
| Extraction.ProcessDocx | src/utils/document_processor.py:80-109 | a Word document yields paragraph text then table text, paragraph chunks then table chunks, and the paragraph and table counts |
| Extraction.ParagraphChunksWellFormed | src/utils/document_processor.py:87-90 | paragraph chunks are well formed, with no page number and section `paragraph` |
| Extraction.TablesChunksWellFormed | src/utils/document_processor.py:93-98 | table chunks are well formed, with no page number and section `table` |
| Extraction.DocxChunksOrdered | src/utils/document_processor.py:86-98 | all paragraph chunks come before all table chunks |
| Extraction.Head | src/utils/document_processor.py:131 | `df.head(100)` is a prefix of at most 100 rows, the whole table when it is shorter |
| Extraction.ProcessRows | src/utils/document_processor.py:130-135 | the row loop appends each non-blank row's text on its own line, and its chunks |
| Extraction.ProcessSheet | src/utils/document_processor.py:117-135 | a sheet contributes its separator, its column line and the non-blank rows among its first 100 rows, and chunks for its header then those rows |
| Extraction.ProcessXlsx | src/utils/document_processor.py:111-148 | a workbook yields its sheets' text and chunks in sheet order, the sheet count and the sheet names |
| Extraction.SheetRowCap | src/utils/document_processor.py:131 | rows past the hundredth change neither the text nor the chunks |
| Extraction.PresentAllNull | src/utils/document_processor.py:132 | a row of missing cells has no values to join |
| Extraction.NullRowSkipped | src/utils/document_processor.py:132-133 | a row of missing cells adds neither text nor chunks |
| Extraction.RowsChunksWellFormed | src/utils/document_processor.py:131-135 | data-row chunks are well formed, with no page number and section `data_row` |
| Extraction.SheetChunksOrdered | src/utils/document_processor.py:124-135 | a sheet's header chunks come first, then its data-row chunks, each well formed with its own section |
| Extraction.SheetsChunksWellFormed | src/utils/document_processor.py:117-135 | every workbook chunk is non-empty, stripped and records its length |
| Extraction.ProcessDocument | src/utils/document_processor.py:29-49 | `process_document` returns the result of the extractor chosen by the lower-cased extension |
| Extraction.UnsupportedFormatFails | src/utils/document_processor.py:40-49 | an unsupported extension gives the failure naming it, with empty text, no chunks and no metadata |
| Extraction.ProcessedSuccess | src/utils/document_processor.py:29-49 | processing succeeds exactly when the extension is supported and the parser accepts the file; a failure carries an error and nothing else, a success carries no error |
| Extraction.ProcessedChunksWellFormed | src/utils/document_processor.py:29-39 | whatever the format, every chunk is non-empty, stripped and records its length |
| Extraction.PdfAfterCloseFails | src/utils/document_processor.py:68-75 | as written, no PDF processes successfully, since the page count is read after closing; with the count read while open, a parsed PDF succeeds with its page count; other formats are unaffected |
| VectorIndex.ChunkIds | src/utils/document_processor.py:242 | one id per chunk, the `i`-th being `doc_<document>_chunk_<i>` |
| VectorIndex.FirstUnderscore | src/utils/document_processor.py:242 | the position found is the first underscore, or the end when there is none |
| VectorIndex.SplitAtUnderscore | src/utils/document_processor.py:242 | two strings split at a first underscore are equal only if both parts are |
| VectorIndex.ChunkIdInjective | src/utils/document_processor.py:242 | two records share an id only if they have the same document and index |
| VectorIndex.ChunkIdsDistinct | src/utils/document_processor.py:242 | the ids of one call are pairwise distinct |
| VectorIndex.MetadataFor | src/utils/document_processor.py:244-252 | the metadata holds the document id and the chunk's page number; section type defaults to `paragraph`; length defaults to the text's length |
| VectorIndex.NewEntries | src/utils/document_processor.py:242-258 | the `i`-th new record has the `i`-th id, embedding, text and metadata |
| VectorIndex.InsertedProperties | src/utils/document_processor.py:254-259 | adding keeps ids unique, keeps the existing records as a prefix, and adds only new records |
| VectorIndex.AddedIsolated | src/utils/document_processor.py:237-259 | adding a document's chunks keeps ids unique, keeps every existing record, adds only records of that document, and leaves every other document's records unchanged |
| VectorIndex.OfDocumentFilter | src/utils/document_processor.py:264-265 | the records selected for a document are exactly that document's records: a subsequence of the collection in stored order, each record as often as it is stored, and no other record |
| VectorIndex.WhereFilter | src/utils/document_processor.py:263-265 | a filter is applied exactly when a document id is given and is truthy (not 0), and then it is that id |
| VectorIndex.InsertHitPermutes | src/utils/document_processor.py:267-271 | inserting a hit into the ranking adds exactly that hit |
| VectorIndex.InsertHitSorted | src/utils/document_processor.py:267-271 | inserting a hit keeps the ranking sorted by distance |
| VectorIndex.Rank | src/utils/document_processor.py:267-271 | the ranking is sorted by distance and is a permutation of the candidates |
| VectorIndex.TakeNearest | src/utils/document_processor.py:267-271 | the first `n` of a sorted permutation are the `n` nearest candidates, sorted |
| VectorIndex.NearestIsTopN | src/utils/document_processor.py:261-271 | the search returns `min(n, candidates)` hits, sorted by distance, drawn from the matching records, none farther than any left out |
| VectorIndex.NearestMatchesFilter | src/utils/document_processor.py:263-270 | with a truthy document id, every hit belongs to that document |
| VectorIndex.Unzipped | src/utils/document_processor.py:273-277 | the three result lists are aligned: position `k` holds the `k`-th hit's text, metadata and distance |
| VectorIndex.WithoutDocument | src/utils/document_processor.py:279-287 | after deletion no record of the document remains, and every remaining record was there before |
| VectorIndex.DeleteKeepsOthers | src/utils/document_processor.py:279-287 | deleting one document leaves every other document's records unchanged, in order |
| VectorIndex.DeleteRemovesAll | src/utils/document_processor.py:279-287 | after deleting a document none of its records is found |
| VectorIndex.DeleteAbsentIsNoOp | src/utils/document_processor.py:286-287 | deleting a document with no records changes nothing |
| VectorIndex.WithoutDocumentUnique | src/utils/document_processor.py:279-287 | deletion keeps ids unique |
| VectorIndex.VectorStore.constructor | src/utils/document_processor.py:224-235 | a new store is empty and valid |
| VectorIndex.VectorStore.AddChunks | src/utils/document_processor.py:237-259 | an empty chunk or embedding list changes nothing; mismatched non-empty lists are rejected and change nothing; otherwise the new records are inserted; ids stay unique |
| VectorIndex.VectorStore.SearchSimilar | src/utils/document_processor.py:261-277 | the result is the aligned lists of the nearest matching records, at most `n_results` of them |
| VectorIndex.VectorStore.DeleteDocumentChunks | src/utils/document_processor.py:279-287 | the store loses exactly that document's records; ids stay unique |
| Synthesis.PriorityIndex | src/utils/qa_service.py:111-126 | each intent's position in the order the cues are tried, General last |
| Synthesis.Classify | src/utils/qa_service.py:111-126 | the chosen intent has a cue in the lower-cased question, and no intent tried before it does; General means no cue matched |
| Synthesis.ContainsPair | src/utils/qa_service.py:111 | a phrase occurs only where its first two characters occur side by side |
| Synthesis.NotContains | src/utils/qa_service.py:111 | a text lacking a phrase's first two characters side by side does not contain it |
| Synthesis.ClassifyQuantityBeforePerson | src/utils/qa_service.py:113-120 | "how many people" is a quantity question: the quantity cues are tried before the person cue "people" |
| Synthesis.PickedNonEmpty | src/utils/qa_service.py:201-204 | a strategy has a candidate sentence exactly when some piece passes its test |
| Synthesis.PickedAppend | src/utils/qa_service.py:201-204 | filtering two runs of pieces filters the first, then the second |
| Synthesis.PickedFirst | src/utils/qa_service.py:201-204 | the first candidate is the stripped first piece that passes the test |
| Synthesis.PickedAreStrippedPieces | src/utils/qa_service.py:201-204 | every candidate is a stripped piece of the context |
| Synthesis.FirstPickQuotesFirstPassing | src/utils/qa_service.py:206-207 | the answer quotes the first passing piece after "According to the document: " |
| Synthesis.FirstPickFallsBack | src/utils/qa_service.py:206-209 | with no passing piece the answer is the fallback |
| Synthesis.QuantityAnswerQuotesFirst | src/utils/qa_service.py:157-170 | when numbers were found, the quantity answer quotes the first piece containing one |
| Synthesis.DateAnswerQuotesFirst | src/utils/qa_service.py:172-193 | when dates were found, the date answer quotes the first piece containing one |
| Synthesis.LocationAnswerQuotesFirst | src/utils/qa_service.py:195-209 | the location answer quotes the first piece longer than 20 characters with a location word in it |
| Synthesis.PersonAnswerQuotesFirst | src/utils/qa_service.py:211-226 | when names were found, the person answer quotes the first piece longer than 20 characters containing one |
| Synthesis.ReasonAnswerQuotesFirst | src/utils/qa_service.py:228-242 | the reason answer quotes the first piece longer than 20 characters with a reason phrase in it |
| Synthesis.LocationFallsBack | src/utils/qa_service.py:195-209 | the location answer is the fallback when no piece longer than 20 characters has a location word |
| Synthesis.ReasonFallsBack | src/utils/qa_service.py:228-242 | the reason answer is the fallback when no piece longer than 20 characters has a reason phrase |
| Synthesis.ProcessFallsBack | src/utils/qa_service.py:244-261 | the process answer is the fallback when no piece longer than 20 characters has a process word |
| Synthesis.GeneralTermsFilter | src/utils/qa_service.py:266-267 | the general key terms are the question words longer than three characters, in the order found and each as often as it was found |
| Synthesis.DefinitionTermsFilter | src/utils/qa_service.py:134-135 | the definition key terms are the question words longer than three characters other than "what", "define" and "definition", in the order found and each as often as it was found |
| Synthesis.Score | src/utils/qa_service.py:146 | a sentence scores at most one per key term |
| Synthesis.ScoreZero | src/utils/qa_service.py:279-281 | a sentence scores 0 exactly when it contains none of the key terms |
| Synthesis.DefinitionScanBound | src/utils/qa_service.py:137-151 | the kept score is at least every eligible piece's score, and a sentence is kept exactly when that score is positive |
| Synthesis.DefinitionScanWinner | src/utils/qa_service.py:137-151 | a positive kept score belongs to an eligible piece whose stripped text is the kept sentence, and every earlier eligible piece scored less |
| Synthesis.DefinitionScanKeepsBest | src/utils/qa_service.py:140-150 | the first piece of maximal positive score is the one kept |
| Synthesis.DefinitionScanKeepsNothing | src/utils/qa_service.py:152-155 | when no eligible piece scores, no sentence is kept |
| Synthesis.DefinitionAnswerQuotesBest | src/utils/qa_service.py:128-155 | the definition answer quotes the first best-scoring piece of 20 or more characters after "Based on the document: " |
| Synthesis.DefinitionAnswerFallsBack | src/utils/qa_service.py:152-155 | with no scoring piece the definition answer is its own fallback ("mentions") |
| Synthesis.ExtractDefinition | src/utils/qa_service.py:128-155 | the loop computes the definition answer |
| Synthesis.ScoredSentences | src/utils/qa_service.py:273-282 | only sentences with a positive score are kept |
| Synthesis.InsertByScorePermutes | src/utils/qa_service.py:285 | inserting into the sorted list adds exactly that sentence |
| Synthesis.InsertByScoreSorted | src/utils/qa_service.py:285 | inserting keeps the list in descending score order |
| Synthesis.InsertByScoreStable | src/utils/qa_service.py:285 | inserting places the sentence after every earlier sentence of the same score |
| Synthesis.SortByScoreCorrect | src/utils/qa_service.py:285 | the sort is descending by score, a permutation, and stable: sentences of equal score keep their order, as Python's `sort(reverse=True)` does |
| Synthesis.SortByScoreFirstIsBest | src/utils/qa_service.py:285-289 | the first sorted sentence scores at least as much as every scored sentence |
| Synthesis.ExtractGeneralAnswer | src/utils/qa_service.py:263-291 | the loop and sort compute the general answer |
| Synthesis.DefinitionNoWords | src/utils/qa_service.py:128-155 | when no word is found in the question, the definition answer is its fallback |
| Synthesis.GeneralNoWords | src/utils/qa_service.py:263-291 | when no word is found in the question, the general answer is the fallback |
| Synthesis.LiteralPatternsFallBack | src/utils/qa_service.py:134-266 | with the token patterns as written, which match only text containing a backslash, the definition, quantity, date, person and general answers are always the fallback for text without one |
| Synthesis.ScoredSentencesArePieces | src/utils/qa_service.py:273-282 | every scored sentence is a stripped piece of the context |
| Synthesis.SortByScoreKeepsSentences | src/utils/qa_service.py:285 | sorting introduces no new sentence |
| Synthesis.QuoteOne | src/utils/qa_service.py:153 | quoting one piece of the context after a prefix quotes the context |
| Synthesis.FirstPickQuotes | src/utils/qa_service.py:165-170 | a first-pick answer is the fallback or quotes a piece of the context |
| Synthesis.DefinitionQuotes | src/utils/qa_service.py:128-155 | the definition answer is its fallback or quotes a piece of the context |
| Synthesis.FirstPicksQuote | src/utils/qa_service.py:250-259 | up to three picks, joined by `". "` after the answer prefix, quote pieces of the context |
| Synthesis.ProcessQuotes | src/utils/qa_service.py:244-261 | the process answer is the fallback or quotes at most three pieces of the context |
| Synthesis.RankedQuotes | src/utils/qa_service.py:285-289 | the two best-scoring sentences, joined, quote pieces of the context |
| Synthesis.GeneralQuotes | src/utils/qa_service.py:263-291 | the general answer is the fallback or quotes at most two pieces of the context |
| Synthesis.LocationQuotes | src/utils/qa_service.py:195-209 | the location answer is the fallback or quotes a piece of the context |
| Synthesis.ReasonQuotes | src/utils/qa_service.py:228-242 | the reason answer is the fallback or quotes a piece of the context |
| Synthesis.QuantityQuotes | src/utils/qa_service.py:157-170 | the quantity answer is the fallback or quotes a piece of the context |
| Synthesis.DateQuotes | src/utils/qa_service.py:172-193 | the date answer is the fallback or quotes a piece of the context |
| Synthesis.PersonQuotes | src/utils/qa_service.py:211-226 | the person answer is the fallback or quotes a piece of the context |
| Synthesis.CuedAnswerQuotesContext | src/utils/qa_service.py:111-124 | every cued strategy's answer is a fallback or quotes pieces of the context |
| Synthesis.SynthesizeQuotesContext | src/utils/qa_service.py:98-126 | every generated answer is one of the two fallbacks or quotes one to three stripped sentences of the context |
| QuestionAnswering.RoundHalfEven | src/utils/qa_service.py:77 | rounding to an integer moves a value by at most one half |
| QuestionAnswering.RoundHalfEvenBounds | src/utils/qa_service.py:77 | rounding never crosses an integer bound |
| QuestionAnswering.Round3 | src/utils/qa_service.py:77 | `round(x, 3)` moves a value by at most 0.0005 |
| QuestionAnswering.Round3Bounds | src/utils/qa_service.py:85 | rounding to three places never crosses a bound that is a multiple of 0.001 |
| QuestionAnswering.ZipLength | src/utils/qa_service.py:40-44 | `zip` stops at the shortest of the three result lists |
| QuestionAnswering.SelectedTotal | src/utils/qa_service.py:37-53 | `total_length` is the summed length of the chunks taken, and at most the budget once anything is taken |
| QuestionAnswering.SelectedSound | src/utils/qa_service.py:40-52 | the context keeps search order, and every chunk is the result at its rank, closer than 0.7 |
| QuestionAnswering.SelectedTakes | src/utils/qa_service.py:46 | a result is in the context exactly when it passes the test on being reached: a close result is skipped only when it would overflow the budget |
| QuestionAnswering.SelectedEmpty | src/utils/qa_service.py:55-61 | the context is empty exactly when no result is both closer than 0.7 and short enough to fit on its own |
| QuestionAnswering.SelectContext | src/utils/qa_service.py:37-53 | the loop builds exactly the selected context, with its total length |
| QuestionAnswering.SimilaritySumAbove | src/utils/qa_service.py:67 | similarities above a bound sum to more than the bound times their number |
| QuestionAnswering.Confidence | src/utils/qa_service.py:67-68 | the confidence is at most 1 |
| QuestionAnswering.ConfidenceBounds | src/utils/qa_service.py:67-85 | chunks closer than 0.7 give a confidence above 0.36 and at most 1, and so does its rounding to three places (at least 0.36) |
| QuestionAnswering.PreviewShape | src/utils/qa_service.py:74 | a preview is at most 203 characters, begins with the text's first 200, and is the text itself when that has at most 200 |
| QuestionAnswering.Sources | src/utils/qa_service.py:71-80 | one source per context chunk, in order, with its rank, preview, page, section and rounded similarity |
| QuestionAnswering.JoinedContextLength | src/utils/qa_service.py:104 | the joined context is the chunks' total length plus one space between each two |
| QuestionAnswering.AnsweredFailure | src/utils/qa_service.py:28-61 | a reply fails exactly when the search found nothing or no result fits on its own; failures have confidence 0 and no sources; an empty search gives the no-results message |
| QuestionAnswering.ContextSources | src/utils/qa_service.py:71-81 | sources are in rank order, each describing a result closer than 0.7 with its page, section, similarity rounded to three places and preview |
| QuestionAnswering.ContextBounds | src/utils/qa_service.py:37-69 | a non-empty context has at most one chunk per result, a rounded confidence between 0.36 and 1, and a joined text within the budget plus the joining spaces |
| QuestionAnswering.AnsweredSuccess | src/utils/qa_service.py:63-88 | a success reports how many chunks it used, between 1 and the number of results; confidence is between 0.36 and 1; sources are in rank order, each matching its result's page, section, rounded similarity and preview; the context answered from fits the budget plus the joining spaces |
| QuestionAnswering.AnsweredGrounded | src/utils/qa_service.py:64 | a successful answer is a fallback or quotes sentences of the selected chunks' joined text |
| QuestionAnswering.RankBound | src/utils/qa_service.py:40-52 | strictly increasing ranks below `n` are at most `n` in number |
| QuestionAnswering.AnswerQuestion | src/utils/qa_service.py:13-96 | an embedding failure becomes the error reply with the exception's message; otherwise the reply is the answer to the 10 nearest matching records; a success uses at most 10 sources |

## Left out

- File I/O and the parsing libraries (PyMuPDF, python-docx, openpyxl, pandas) are not modelled. A document is given as its parsed content, or as the parser's error message.
- pandas and openpyxl value formatting (`str(val)` of numbers, dates and column labels) is not modelled. Cells and column names are given as strings, and a missing cell as `None`.
- `calculate_file_hash` is left out. It reads a file and computes SHA-256, which is I/O plus a hash function.
- `EmbeddingService` is left out. It is a neural model; the question's embedding is a parameter, either a vector or the exception's message.
- Chroma's approximate HNSW search is replaced by an exact, stable nearest-first ranking under a given distance function. The order among equal distances is not modelled.
- Chroma's persistence and telemetry settings are left out.
- Chroma's validation of `None` metadata values (a chunk without a page number) is left out.
- Chroma's behaviour on ids that already exist is taken to be "ignore the new record".
- Exceptions raised inside the vector search, the answer strategies or metadata lookups are left out. The only error path modelled in `answer_question` is the embedding failure, which leads to the same error reply.
- Floating point arithmetic is left out. Similarities, distances, confidence and rounding are exact reals. `round(x, 3)` is modelled as half-to-even rounding of the exact value, not of its binary approximation.
- The regular-expression searches (`re.findall` for question words, numbers, dates and capitalised names) are given functions in `Synthesis.Finders`. Their results are inputs, except for the as-written property in the findings below.
- `lower()` is modelled on ASCII letters only.
- `str.strip` uses Python's `str.isspace` character set, listed in `Text.IsSpace`; no other Unicode property is modelled.
- Synthesis.Score: only the bound of one per key term is stated in its contract. Its meaning is given by `Synthesis.ScoreZero` and the scan lemmas.
- Synthesis.Classify: the lemma about a concrete question covers one phrase only ("how many people"), not every phrase.
- The HTTP routes (`src/routes/*.py`), the database models (`src/models/document.py`) and the front end (`App.jsx`) are not part of this model.

## Findings

| source | as written | input that shows it | evidently intended | confidence | as-written member | corrected member |
|---|---|---|---|---|---|---|
| src/utils/document_processor.py:161 | `re.sub(r'\\s+', ' ', text)` matches a backslash followed by one or more `s`, so whitespace runs are never collapsed | `"a\t\tb"` stays `"a\t\tb"`, and `"a\sb"` becomes `"a b"` | `r'\s+'`: every whitespace run becomes one space | not executed | Chunker.NormalizeAsWrittenKeepsTabs | Chunker.NormalizeJoinsWords |
| src/utils/document_processor.py:68-75 | `len(doc)` is read after `doc.close()`; PyMuPDF raises "document closed", so the PDF path always ends in the failure dictionary | any PDF that parses, e.g. one page with text | read the page count before closing | not executed | Extraction.PdfAfterCloseFails | Extraction.ProcessDocument |
| src/utils/qa_service.py:134-266 | the raw patterns `r'\\b\\w+\\b'`, `r'\\b\\d+…'`, the four date patterns and the name pattern all require a literal backslash, so they find nothing in ordinary text | the question "what is photosynthesis?" with any context free of backslashes gives the definition fallback | `\b`, `\w`, `\d`, `\s`: word, number, date and name tokens | not executed | Synthesis.LiteralPatternsFallBack | Synthesis.DefinitionAnswerQuotesBest |
