# Financial RAG chunker and indexers, in Dafny

This project models the deterministic core of a small retrieval-augmented question-answering
system over Excel workbooks of financial data:

- the **chunker** (`chunker.py`) reads each worksheet of a workbook as rows of cells. It takes
  a global header from the first two rows and splits the remaining rows into tables at empty
  rows. In each table it finds the column-header rows, merges them into column names, collects
  the subheaders above the first header row, and writes one JSON chunk per data row below it;
- the **offline builder** (`offline_build.py`) turns every chunk file into a compact markdown
  document with its metadata and id, and adds them to a vector collection in batches of 100;
- the **upload indexer** (`streamlit_app.py`) does the same for the chunks of one uploaded
  workbook, with a titled markdown;
- the **router utilities** of the query orchestrator (`new_streamlit_wth_node.py`) are:
  - the slug of a log file name;
  - the cascade that pulls a JSON object out of the router model's answer;
  - the sanitisation of the router's decision and subqueries;
  - the text of the per-query log.

The model is written in the source's own form. Pure helpers are functions. Each loop of the
source is a method with a `while` loop, proved equal to a reference function, and the
properties the source promises are lemmas about those functions. File reading, JSON
(de)serialisation, the workbook reader, the vector database, the HTTP calls and the UI are
not modelled. Their results come in as parameters:
- a workbook is a list of sheets of rows of `Cell` values;
- a chunk directory is a list of `ChunkFile`s, each holding the chunk-shaped record `json.load`
  gave, or `None` when loading raised;
- the JSON parser is an uninterpreted function `string -> Option<Json>`;
- the clock is a string parameter.

Modules, one per file:
- `wrappers.dfy`: Option and Result;
- `strings.dfy`: the `str` methods used;
- `dicts.dfy`: insertion-ordered dicts;
- `cells.dfy`: cells and `normalize_value`;
- `rows.dfy`: the row predicates;
- `headers.dfy`: `merge_column_headers`;
- `segment.dfy`: the global header and the table split;
- `chunks.dfy`: tables, sheets, workbook;
- `records.dfy`: a chunk as read back, its id and entry line;
- `offline.dfy`: `offline_build.py`;
- `streamlit.dfy`: `streamlit_app.py`;
- `router.dfy`: `new_streamlit_wth_node.py`.

## Model

| member | source | states |
|---|---|---|
| Cells.NormalizeValue | chunker.py:16-27 | dates become their ISO text, integers stop being numpy, floats keep their value; None stays None and nothing else becomes None; numeric stays numeric; normalised values are returned unchanged |
| Cells.NormalizeIdempotent | chunker.py:16-27 | normalising twice is normalising once |
| Rows.IsEmptyRowSpec | chunker.py:33-34 | a row is empty exactly when every cell is None, "" or " " (so a row without cells is empty) |
| Rows.CountNumericZero | chunker.py:37-42 | the numeric count is 0 exactly when no cell is numeric |
| Rows.NonBlankCellsMembers | chunker.py:78 | the non-empty list holds exactly the row's non-blank cells |
| Rows.NonBlankTextsMembers | chunker.py:46 | every non-blank cell contributes its stripped text to the row text |
| Rows.RowToText | chunker.py:45-46 | an empty row has text "" |
| Rows.RowToTextSpec | chunker.py:45-46 | a row with a non-blank cell whose stripped text is not "" has non-empty text |
| Rows.Max | chunker.py:86 | max(idxs) is an element of the list and bounds every element |
| Rows.Min | chunker.py:86 | min(idxs) is an element of the list and is below every element |
| Rows.IsColumnHeaderRowSpec | chunker.py:71-86 | a row is a column-header row exactly when it has at least two non-blank cells, none of its cells is numeric, and no two non-blank cells lie further apart than the number of non-blank cells plus two |
| Rows.NonBlankIndicesSound | chunker.py:85 | every entry of idxs is the position of a non-blank cell |
| Rows.NonBlankIndicesComplete | chunker.py:85 | every non-blank cell has its position in idxs |
| Rows.NonBlankIndicesIncreasing | chunker.py:85 | idxs rises strictly, in the order of the row |
| Rows.SpreadBound | chunker.py:86 | over exactly the non-blank positions, max(idxs) - min(idxs) <= bound holds exactly when no two non-blank cells lie further apart than bound |
| Rows.ConsIncreasing | chunker.py:85 | a position below a rising list of positions keeps it rising when put first, as idxs lists each non-blank position before the later ones |
| Rows.HeaderRowIsNotDataRow | chunker.py:66-86 | no row is both a column-header row and a data row |
| Rows.FundRowIsNotDataRow | chunker.py:52-68 | a fund row is never a data row |
| Rows.DataRowIsNotEmpty | chunker.py:33-68 | a data row has cells and is not empty |
| Headers.MaxWidthSpec | chunker.py:93 | max_cols bounds every header row's length and is the length of one of them |
| Headers.PartsEmptyIff | chunker.py:96-100 | a column gets no parts exactly when no header row has a non-blank cell there |
| Headers.MergedUpToAt | chunker.py:95-100 | column c of the merged list is the join of its parts, or None without parts |
| Headers.CollectParts | chunker.py:96-99 | the inner loop computes the parts of column c, header row by header row |
| Headers.MergeColumnHeaders | chunker.py:92-101 | the nested loops compute the merged column names |
| Headers.MergedColumnsSpec | chunker.py:92-101 | as many names as the longest header row has cells; a name is None exactly when no header row has a non-blank cell at that column, otherwise the " \| "-join of the stripped texts in header-row order |
| Headers.PartsAllRows | chunker.py:96-100 | when every header row names a column, its parts are all their stripped texts, in order |
| Segmenter.GlobalHeader | chunker.py:119-125 | the loop over rows 0 and 1 computes the global header |
| Segmenter.GlobalHeaderSpec | chunker.py:119-125 | at most two lines, none empty, taken from row 0 then row 1; later rows never count |
| Segmenter.RunSpec | chunker.py:131-137 | a table run is a prefix of non-empty rows that stops at an empty row or at the end |
| Segmenter.PendingClose | chunker.py:132-135 | an empty row closes the current table |
| Segmenter.PendingSkip | chunker.py:132-136 | an empty row with no current table is skipped |
| Segmenter.PendingExtend | chunker.py:137 | any other row joins the current table |
| Segmenter.SplitTables | chunker.py:127-140 | the split loop computes the tables of the sheet |
| Segmenter.FlattenSplit | chunker.py:127-140 | the tables, concatenated, are exactly the non-empty rows, in order |
| Segmenter.SplitTablesWellFormed | chunker.py:127-140 | each table is non-empty, has no empty row, and is a block of consecutive row numbers |
| Segmenter.SplitTablesSeparated | chunker.py:132-135 | two tables in a row are separated by at least one row number |
| Segmenter.NonEmptyEntriesMembers | chunker.py:132-137 | every kept entry is an entry of the sheet with a non-empty row |
| Segmenter.NonEmptyEntriesIncreasing | chunker.py:131-137 | keeping the non-empty rows keeps the row numbers strictly rising |
| Segmenter.TablesSpec | chunker.py:127-140 | the tables of a sheet: its non-empty rows from the third on, in row order, split into separated blocks of consecutive rows |
| Segmenter.NoTablesFromEmptyRows | chunker.py:132-140 | empty rows alone make no table |
| ChunkBuilder.HeaderRowsSpec | chunker.py:145-147 | every collected row is a header row, and none is collected exactly when the table has none |
| ChunkBuilder.HeaderRowsComplete | chunker.py:145 | col_header_rows holds every header row of the table, once each and in table order: as many entries as header rows, and the header row with n header rows above it at position n |
| ChunkBuilder.HeaderRowsSelected | chunker.py:145 | col_header_rows is the selection of the table's rows that pass is_column_header_row |
| ChunkBuilder.SelectedAt | chunker.py:145 | a row that passes the filter, with n passing rows above it, is entry n of the comprehension's result |
| ChunkBuilder.SelectedLength | chunker.py:145 | the comprehension keeps one entry per row that passes the filter |
| ChunkBuilder.FirstHeaderIndexMinimal | chunker.py:152-154 | no row before first_header_idx is a header row |
| ChunkBuilder.FirstHeaderIndexInside | chunker.py:146-154 | with a header row collected, first_header_idx is inside the table |
| ChunkBuilder.FirstHeaderIndexSpec | chunker.py:146-154 | the two facts together |
| ChunkBuilder.Window | chunker.py:158-159 | table[max(0, f-2):f] has at most two rows |
| ChunkBuilder.CollectSubheaders | chunker.py:156-163 | the loop computes the subheaders |
| ChunkBuilder.SubheadersOfSound | chunker.py:160-163 | every subheader is the non-empty text of a row with at most one numeric cell |
| ChunkBuilder.SubheadersSpec | chunker.py:156-163 | the subheaders are exactly the non-empty texts of the rows with at most one numeric cell among the at most two rows above the first header row, in row order; none when that header is the table's first row |
| ChunkBuilder.SubheadersSound | chunker.py:156-163 | at most two subheaders, each the non-empty text of a window row with at most one numeric cell |
| ChunkBuilder.SubheadersComplete | chunker.py:156-163 | every window row with at most one numeric cell and some text gives its subheader, and two subheaders come in their rows' order |
| ChunkBuilder.SubheadersWindow | chunker.py:156-163 | the subheaders are those of the upper window row followed by those of the lower one |
| ChunkBuilder.BuildDataMap | chunker.py:179-181 | the loop fills the data map |
| ChunkBuilder.StoredNameLast | chunker.py:179-181 | a column name is stored by a row exactly when it is stored before its last cell or by that cell |
| ChunkBuilder.DataKeysUnique | chunker.py:176-181 | every key of the data map occurs once |
| ChunkBuilder.DataKeys | chunker.py:179-181 | the keys are exactly the names of the columns whose cell is stored (a name, not "", cell not None) |
| ChunkBuilder.DataValues | chunker.py:179-181 | a key maps to normalize_value of the last stored cell under that name: later duplicates overwrite |
| ChunkBuilder.DataEmpty | chunker.py:179-183 | the data map is empty exactly when no cell is stored |
| ChunkBuilder.EmitRow | chunker.py:166-190 | one row gives a chunk exactly when it is a data row with a non-empty data map |
| ChunkBuilder.ProcessTable | chunker.py:143-190 | the table loop computes the table's chunks |
| ChunkBuilder.ProcessSheet | chunker.py:115-190 | the sheet body computes the sheet's chunks |
| ChunkBuilder.ProcessExcelFile | chunker.py:107-193 | the chunks written, their count, and whether the output directory is kept (exactly when a chunk was written) |
| ChunkBuilder.ChunksFromSound | chunker.py:166-183 | every chunk comes from a data row with a non-empty data map |
| ChunkBuilder.ChunksFromComplete | chunker.py:166-183 | every data row with a non-empty data map gives a chunk |
| ChunkBuilder.TableChunksSound | chunker.py:145-183 | no chunks without a header row; otherwise each chunk is a data row after the first header row, with the merged columns and the table's subheaders |
| ChunkBuilder.TableChunksComplete | chunker.py:149-183 | every data row after the first header row with a non-empty data map gives a chunk of the table |
| ChunkBuilder.EmittedRowIsNoHeader | chunker.py:166-168 | a chunk's row is neither a header row, nor a fund row, nor empty |
| ChunkBuilder.RowsIncreasingAppend | chunker.py:143 | tables read one after the other keep the chunks' row numbers rising, and none falls below the first table's first row |
| ChunkBuilder.TablesOrderedTail | chunker.py:143 | after the first of the tables found in a sheet, the remaining tables are still blocks of consecutive rows in rising order, and they start after the first table ends |
| ChunkBuilder.ChunksFromIncreasing | chunker.py:166-190 | chunks follow their rows' order and stay in their rows' range |
| ChunkBuilder.TableChunksIncreasing | chunker.py:166-190 | a table's chunks rise in row number within the table's first and last row |
| ChunkBuilder.TablesChunksIncreasing | chunker.py:143-190 | the chunks of successive tables rise in row number |
| ChunkBuilder.SheetChunksIncreasing | chunker.py:131-190 | within a sheet, chunk row numbers rise strictly, from row 3 on |
| ChunkBuilder.FileNameInjective | chunker.py:185 | within a sheet, the file name tells the row |
| ChunkBuilder.SheetFileNamesDistinct | chunker.py:184-189 | no two chunks of a sheet are written to the same file |
| ChunkBuilder.TablesChunksNamed | chunker.py:170-177 | every chunk names the file and sheet, carries the global header, has a non-empty data map |
| ChunkBuilder.SheetChunksNamed | chunker.py:170-183 | the same for a whole sheet, with its own global header |
| ChunkBuilder.WorkbookChunkNamed | chunker.py:115-183 | chunk i of a workbook names the workbook and one of its sheets and has data |
| ChunkBuilder.WorkbookChunksNamed | chunker.py:115-183 | the same for every chunk of the workbook |
| ChunkFiles.ChunkIdRowInjective | offline_build.py:86 | within one file and sheet, different row numbers give different ids |
| ChunkFiles.ChunkIdAcrossFiles | offline_build.py:85-86 | a "__" inside a name lets chunks of different files share an id |
| ChunkFiles.EntryLine | offline_build.py:64 | the line starts with "- **" followed by the key |
| OfflineBuild.KeptAfterHead | offline_build.py:59-64 | appending kept lines to a list keeps the list as its prefix |
| OfflineBuild.ChunkToMarkdown | offline_build.py:43-66 | the loop computes the markdown |
| OfflineBuild.HeadBlock | offline_build.py:44-57 | the first two lines: the context line with the source (or "Unknown Source") and the first global header line (or "General"), then the title line with the subheaders (or "Data Row") |
| OfflineBuild.MarkdownSpec | offline_build.py:43-66 | a context line, a title line, then the kept entry lines; never empty |
| OfflineBuild.ContextOfChunk | offline_build.py:47-52 | for a chunker chunk the context line names its file and first global header line, or "General" |
| OfflineBuild.KeptLinesAppend | offline_build.py:61-64 | kept lines follow the dict's insertion order |
| OfflineBuild.KeptLineAt | offline_build.py:61-64 | entry i, when not noise, gives the line right after those of the earlier entries |
| OfflineBuild.KeptLinesComplete | offline_build.py:61-64 | every entry that is not noise has its line |
| OfflineBuild.KeptLinesSound | offline_build.py:61-64 | every line is that of an entry that is not noise |
| OfflineBuild.KeptLinesEmpty | offline_build.py:61-64 | no data line exactly when every value is noise (0, "0", "NA", "N.A.", "", None, and what equals them) |
| OfflineBuild.LoadedSpec | offline_build.py:73-79 | the loaded list holds exactly the readable files in rglob order: as many entries as readable files, and the path and content of a readable file at the position given by the number of readable files before it; unreadable files are skipped |
| OfflineBuild.LoadedAt | offline_build.py:73-79 | a readable file with k readable files before it is entry k of the loaded list |
| OfflineBuild.LoadChunks | offline_build.py:71-95 | the loop computes docs, metas and ids |
| OfflineBuild.LoadedListsSpec | offline_build.py:71-95 | parallel lists, one entry per readable file in order: its markdown, metadata and id; the `if not text` skip never fires |
| OfflineBuild.BatchRangesPartition | offline_build.py:122-123 | the batches cover [0, total) back to back, each holding 1 to 100 chunks |
| OfflineBuild.BatchedPrefix | offline_build.py:122-131 | the first n batches are the first min(100n, total) chunks |
| OfflineBuild.BatchedAll | offline_build.py:122-131 | all batches together are all chunks, once each and in order |
| OfflineBuild.AddInBatches | offline_build.py:122-134 | the ranges handed to collection.add, and the progress lines printed: exactly the batch ends that are a multiple of 500 or the total, in batch order, each once; the last batch always reports |
| OfflineBuild.ReportedEndsSpec | offline_build.py:133-134 | an end prints a progress line exactly when it ends a batch and is a multiple of 500 or the total; when the last batch reports, its end is the last one printed |
| OfflineBuild.ReportedEndsMembers | offline_build.py:133-134 | an end prints a progress line exactly when it ends one of the batches and is a multiple of 500 or the total |
| StreamlitApp.TitleParts | streamlit_app.py:87-91 | at most two title parts |
| StreamlitApp.HeadingSpec | streamlit_app.py:94 | the heading is at most 120 characters; a short title is kept, a long one is its first 117 characters and "..." |
| StreamlitApp.ChunkToMarkdown | streamlit_app.py:85-97 | the loop computes the markdown |
| StreamlitApp.HeadingBlock | streamlit_app.py:87-94 | the heading line: the title parts joined with " \| " and cut to 120 characters, and no line when there is no title part |
| StreamlitApp.LinesSpec | streamlit_app.py:92-96 | at most one heading line, then the first min(12, len(data)) entries, unfiltered and in order |
| StreamlitApp.EntryLinesAt | streamlit_app.py:95-96 | entry i's line comes i lines after the heading |
| StreamlitApp.EntryLinesHead | streamlit_app.py:92-96 | the heading stays the first line |
| StreamlitApp.MarkdownEmpty | streamlit_app.py:85-97 | the markdown is empty exactly when there is no title part and no data |
| StreamlitApp.IndexUploadedChunks | streamlit_app.py:99-117 | the lists handed to collection.add, or None when no document is left |
| StreamlitApp.IndexedListsParallel | streamlit_app.py:99-110 | docs, metas and ids stay parallel and no doc is empty |
| StreamlitApp.IndexedListsSpec | streamlit_app.py:99-110 | one entry of docs, metas and ids per loaded chunk with a non-empty markdown, in order: its markdown, its metadata and its id |
| StreamlitApp.IndexedListsEmpty | streamlit_app.py:106-111 | None is returned exactly when no readable chunk has a title part or data |
| Router.ShortSlugSpec | new_streamlit_wth_node.py:77-81 | never empty, at most max_len long (for max_len >= 1), "q" for max_len 0, only letters, digits and '_', no '_' at either end |
| Router.ShortSlugIdempotent | new_streamlit_wth_node.py:77-81 | a slug is its own slug |
| Router.StripCharSpec | new_streamlit_wth_node.py:80 | strip("_") keeps characters of its input and leaves no '_' at either end |
| Router.StripCharLeftSuffix | new_streamlit_wth_node.py:80 | lstrip keeps a suffix |
| Router.SlugOfSlug | new_streamlit_wth_node.py:78-80 | a slug within max_len goes through unchanged |
| Router.WordsOfWord | new_streamlit_wth_node.py:78 | a string without whitespace is one word |
| Router.FindCharSpec | new_streamlit_wth_node.py:148 | find is -1 exactly when the character is absent, and no earlier index holds it |
| Router.RFindCharSpec | new_streamlit_wth_node.py:149 | rfind is -1 exactly when the character is absent, and no later index holds it |
| Router.BraceBlock | new_streamlit_wth_node.py:148-151 | the candidate starts with '{' and ends with '}' |
| Router.BraceBlockExists | new_streamlit_wth_node.py:148-150 | the brace candidate exists exactly when some '{' comes before some '}' |
| Router.FenceInnerSpec | new_streamlit_wth_node.py:138-141 | the fence candidate exists exactly when the text opens and closes with non-overlapping ``` and is stripped |
| Router.Candidates | new_streamlit_wth_node.py:129-151 | one to three candidates, the stripped text first |
| Router.FirstParseSpec | new_streamlit_wth_node.py:131-157 | the first candidate that parses wins, the earlier ones failing; None only when none parses |
| Router.ExtractJsonIsFirstParse | new_streamlit_wth_node.py:126-157 | the cascade is the first successful parse of direct text, fence, brace block, and otherwise fails with "No valid JSON found in router response" |
| Router.CleanSubqueriesAppend | new_streamlit_wth_node.py:236 | the comprehension keeps order |
| Router.CleanSubqueriesSingle | new_streamlit_wth_node.py:236 | one item contributes its stripped text when it is a non-blank string, else nothing |
| Router.CleanSubqueriesStripped | new_streamlit_wth_node.py:236 | every kept subquery is stripped and not empty |
| Router.Sanitize | new_streamlit_wth_node.py:216-244 | ("simple", []) for a failed extraction, a value that is not an object, a decision that is not a string, and a "complex" decision whose subqueries are missing, not a list, or have no non-blank string; a "complex" decision with a usable list keeps its first four cleaned subqueries; any other decision is kept, stripped and lower-cased, with no subqueries; never more than four subqueries |
| Router.SanitizeComplex | new_streamlit_wth_node.py:228-239 | a "complex" route has one to four stripped, non-blank subqueries, the first of the cleaned list in order |
| Router.RouteFailSafe | new_streamlit_wth_node.py:219-244 | a router answer that is not a JSON object, has a decision that is not a string, or is "complex" without a usable subquery list is routed as ("simple", []) (under the corrected rule, which agrees with the source there) |
| Router.SanitizeOtherDecision | new_streamlit_wth_node.py:225-269 | as written, {"decision": "maybe"} leaves the simple path with no subqueries |
| Router.SanitizeIntended | new_streamlit_wth_node.py:225-247 | the decision is "simple" or "complex", and "simple" has no subqueries |
| Router.SanitizeIntendedSpec | new_streamlit_wth_node.py:225-269 | the subquery path always gets one to four clean subqueries, and every outcome the source gets right is kept |
| Router.HeaderBlock | new_streamlit_wth_node.py:163-174 | the eleven header lines |
| Router.CallBlock | new_streamlit_wth_node.py:176-184 | the nine lines of one call |
| Router.CallsLogged | new_streamlit_wth_node.py:175-184 | nine lines per call after the header |
| Router.BuildFullTextLog | new_streamlit_wth_node.py:162-187 | the method computes the log text |
| Router.CallsLoggedHead | new_streamlit_wth_node.py:175-184 | the call blocks leave the header in front |
| Router.CallsLoggedAt | new_streamlit_wth_node.py:175-184 | line j of call k is line |head| + 9k + j |
| Router.LogLinesFrame | new_streamlit_wth_node.py:162-187 | 13 + 9n lines, opening with a rule, "QUERY", a rule and the query, closing with "END OF LOG" and a rule |
| Router.LogLinesCall | new_streamlit_wth_node.py:175-184 | call k's heading, prompt and response are at lines 11 + 9k, +3 and +6 |
| Router.LogLinesCalls | new_streamlit_wth_node.py:175-184 | every call, numbered from 1, gets "LLM CALL i: type" with its prompt and response (default "unknown" and "") |
| Router.FullTextLogFrame | new_streamlit_wth_node.py:164-187 | the text starts with 100 '=' then "QUERY", and ends with "END OF LOG" then 100 '=' |
| Strings.StripSpec | chunker.py:45-46 | strip() leaves no whitespace at either end and gives "" exactly for all-whitespace text |
| Strings.StripStripped | chunker.py:46 | a string without whitespace at its ends is its own strip() |
| Strings.NatToStringInjective | chunker.py:185 | distinct row numbers are written differently |
| Dicts.FindSpec | chunker.py:181 | lookup finds the first position of a key, or -1 exactly when absent |
| Dicts.StoreSpec | chunker.py:181 | assignment grows the dict exactly for a new key, keeps key order, sets the key, leaves other keys' values, keeps keys unique |

## Left out

- File-system work is not modelled: listing and reading directories, `rglob`, `makedirs`,
  `rmdir`, writing files, and the temporary upload file. The file stem of a workbook is a
  parameter, and a chunk directory is the list of files with the chunk-shaped record `json.load` gave.
- `openpyxl`, `json`, `chromadb`, the embedding model, `requests`/OpenRouter and Streamlit are
  not modelled. Their results are parameters: a workbook is a list of sheets of `Cell` rows;
  the JSON parser is an uninterpreted function. The source's `main` functions, `call_llm`,
  `call_llm_openrouter`, the retrieval and answer steps of `process_query_and_log`, and the UI
  are not part of this model.
- `now_ts`, the SHA-1 digest and `make_log_paths` are not modelled, because they depend on the
  clock and a hash. The time printed in the log is a parameter of `Router.BuildFullTextLog`.
- Floating-point values are carried as a real number with their `str()` text. `float(Decimal)`
  and `float(numpy.floating)` rounding is not modelled: a normalised Decimal or numpy float
  keeps its value exactly and its original printed text, where Python would print the float
  (`Decimal("0.00")` as `0.0`, `numpy.float32(0.1)` as `0.10000000149011612`). That text
  reaches the entry lines of both markdowns. `openpyxl` yields neither type, so cells read
  from a workbook are not affected.
- `str.isalnum`, `str.isdigit`, `str.lower` and the regex `IGNORECASE` are restricted to
  ASCII, so Unicode letters and digits outside ASCII are not modelled. Whitespace for
  `strip()` and `split()` is Python's full set. The regex `\s` of the fence pattern is not
  separately modelled: the `strip()` of group(1) removes what it would take.
- A JSON object with a repeated key is read with the first occurrence winning, in
  `Dicts.Get`. Python's `json.loads` keeps the last one.
- Streamlit's `chunk_to_markdown` accepts a subheaders value that is a single string rather
  than a list (line 91). A record here always holds a list, so that branch is not modelled.
- A chunk key that is present with the value null reads as absent. For the chunker's own
  files, which always have every key, this makes no difference.
- `json.dump` of a chunk holding an `Other` cell (a time or timedelta) would raise. Every
  chunk is modelled as written.
- Every loaded chunk file is assumed chunk-shaped: a JSON object whose `global_header` and
  `subheaders` are lists of strings and whose `data` is an object, as the chunker writes them.
  `ChunkFiles.Record` cannot hold anything else. Other JSON (a list, or `subheaders` holding
  numbers) is not modelled: offline `load_chunks` has no `try` around `chunk_to_markdown` and
  `c.get` (offline_build.py lines 81-94), so the offline build would stop with an exception on
  such a file, while the upload indexer's bare `except` would skip it.
- The bare `except: continue` of `index_uploaded_chunks` is modelled only for files that fail to
  load; the markdown and id steps cannot raise on a well-formed record.
- `run_index_for_upload` is called in `new_streamlit_wth_node.py` but not defined there.
  `UPLOADS_DIR` at `streamlit_app.py:23` is undefined, so that module fails at import. Neither
  is modelled.
- Rows.LooksLikeFundRow requires a non-empty row, because the source reads `row[0]` and would
  raise on an empty one. `is_data_row` only asks for it after finding a numeric cell.
- Headers.MergeColumnHeaders requires at least one header row, because `max()` of an empty
  list raises. The only caller passes a non-empty list.
- Router.BuildFullTextLog: a call's `kind`, `prompt` or `response` of `None` stands only for a
  missing key, which every caller fills in. A key that is present but holds `None` is not
  modelled. That case does arise: `call_llm_openrouter` returns the API's `message.content`
  (new_streamlit_wth_node.py:110), which may be JSON null, and `process_query_and_log` stores it
  as the call's response (lines 213, 260, 282, 303). The source then appends `None` to `lines`
  (line 182), and `"\n".join(lines)` (line 187) raises `TypeError`, so no log is written. The
  model always returns a log text. The callers always give a string type and prompt; a present
  `None` type would print as "None", not "unknown".
- ChunkFiles.ChunkIdRowInjective: chunk ids are unique only within one file and sheet. Across
  files they can collide, which ChunkFiles.ChunkIdAcrossFiles shows. Vector-store behaviour on
  a duplicate id is not modelled.

## Findings

| source | as written | input that shows it | evidently intended | confidence | as-written member | corrected member |
|---|---|---|---|---|---|---|
| new_streamlit_wth_node.py:225-247 | a decision other than "simple" or "complex" is kept as it is, with no subqueries, so the subquery path (line 267, "subqueries guaranteed non-empty") runs with none | router answer `{"decision": "maybe"}` | any decision other than "complex" falls back to "simple" | not executed | Router.SanitizeOtherDecision | Router.SanitizeIntendedSpec |
