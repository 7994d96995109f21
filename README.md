# Stock-Master-AI, modelled in Dafny

Stock-Master-AI is a browser tool for stock contributors. It has three tabs:

- The **vector tool** keeps a queue of uploaded SVG/EPS artwork. It sends each file to the Gemini model for a title, a description and keywords, and lets the user edit what comes back. It exports an Adobe Stock metadata CSV, or a ZIP package with the CSV, the sources and 3000-pixel JPEG previews.
- The **prompt tool** keeps a queue of uploaded or pasted images. It asks the model for one text-to-image prompt per image.
- The **trends tool** fetches trending categories and exports them as a plain-text report.

This project models the logic behind these tabs. It has these modules:

- `Types`: the records of `types.ts`. An item's status is one of `pending`, `processing`, `completed` or `error`. `VectorMetadata` has exactly a title, a description and tags. A `FileItem` always has an id, a file, a preview URL (possibly empty) and a status. Its metadata, prompt and error are optional.
- `ItemStore`: the list operations both queues share. These are appending fresh items, updating by id, removing by id, the `pending`/`error` snapshot of a batch run, and the state of the list after `k` runs of a batch.
- `VectorTool` and `PromptTool`: the two queues as classes (`VectorQueue`, `PromptQueue`). Their fields are the component state. Their methods are the event handlers. Every item in the list has a distinct id. A completed item has its result and no error.
- `Gemini`: the encoder's decision rules, the 1024-pixel clamp, and the rules for empty model responses. The encoder's rule is that SVG is drawn to a white JPEG and anything else passes through as a data-URL payload.
- `FileHelpers`: the Adobe Stock CSV, the ZIP package built by an `Archive` class and its per-item loop, the progress percentages, and the preview scale.
- `CsvFormat`: an RFC 4180 record reader. It is the independent partner against which the CSV rows are proved to read back.
- `TrendsTool`: the fetch flags and the report text, as the class `TrendsState`.
- `Text`, `Seqs`, `Imaging`, `Wrappers`: JavaScript's `split`, `join`, `trim` and `toUpperCase`; `filter`; the `naturalWidth || width || fallback` dimension rule; `Option` and `Result`.

Outside effects are parameters of the model:

- each file read, image decode and model response;
- the rasteriser of the ZIP previews;
- the random ids and object URLs;
- the clock's date strings.

A list of outcomes stands for what a batch of calls returned, in call order.

## Model

| member | source | states |
|---|---|---|
| Types.StatusName | types.ts:12 | Every status has a literal, and that literal reads back to the same status |
| Types.ParseStatus | types.ts:12 | A string is a status exactly when it is one of the four literals |
| Types.TabValue | types.ts:18-21 | Every tab's value reads back to the same tab |
| Types.ParseTab | types.ts:18-21 | A string names a tab exactly when it is `vector` or `prompt` |
| Imaging.Dimension | services/gemini.ts:22-23 | The natural size when it is not zero; otherwise the declared size when that is not zero; otherwise the fallback. A non-zero fallback makes the result non-zero |
| Imaging.LongestEdge | services/gemini.ts:24 | The larger of the two edges, equal to one of them |
| Gemini.IsSvgByCharacters | services/gemini.ts:13 | A file is treated as SVG exactly when its MIME type is `image/svg+xml` or its name ends in `.svg` in any letter case |
| Gemini.IsSvg | services/gemini.ts:13 | The SVG test: the MIME type is `image/svg+xml`, or the lower-cased name ends in `.svg` |
| Gemini.DataUrlPayload | services/gemini.ts:57 | The text between the first comma and the next one (or the end), absent exactly when the URL has no comma |
| Gemini.DataUrlRoundTrip | services/gemini.ts:57 | Splitting a data URL built from a comma-free MIME type and payload gives back the payload |
| Gemini.AnalysisScale | services/gemini.ts:21-24 | The scale is in (0, 1]; it is 1 when the longest edge is at most 1024, and otherwise it brings that edge to exactly 1024 |
| Gemini.AnalysisCanvas | services/gemini.ts:21-27 | The canvas is each dimension times the analysis scale; its bounds are `AnalysisCanvasBounds` |
| Gemini.ShrunkEdge | services/gemini.ts:24-27 | A scaled edge stays positive, never grows, never exceeds 1024, and is unchanged at scale 1 |
| Gemini.AnalysisCanvasBounds | services/gemini.ts:21-27 | The analysis canvas is positive, no larger than the image, within 1024 on both sides, and the image's own size when that already fits |
| Gemini.FileToDataPart | services/gemini.ts:12-68 | SVG: read, render and context failures give their own error messages; success is exactly all three succeeding, with a JPEG part. Other files: success exactly when the read succeeds; the type defaults to `image/jpeg`; the data is the payload after the comma; a failed read rejects with no message |
| Gemini.NonSvgPayload | services/gemini.ts:54-63 | A non-SVG file read as a data URL is encoded as that URL's payload with its own MIME type, or `image/jpeg` when the type is empty |
| Gemini.SvgPayload | services/gemini.ts:38-44 | An SVG that decodes with a context is encoded as the payload of the JPEG rendering of its analysis canvas |
| Gemini.VectorMetadataFromResponse | services/gemini.ts:99-101 | An empty or missing response fails with "No response from AI"; any other response is whatever the JSON parser makes of it |
| Gemini.ImagePromptFromResponse | services/gemini.ts:118 | The prompt is never empty; it is the fallback text exactly when the response is empty, and otherwise the response itself |
| Gemini.AnalyzeVector | services/gemini.ts:73-101 | An encoding failure is passed on unchanged, and so is a rejected SDK call; otherwise the result is the response rule applied to the model's answer |
| Gemini.AnalyzePrompt | services/gemini.ts:107-118 | Fails exactly when encoding fails or the SDK call rejects, with that error. An empty answer is not a failure: it yields the fallback prompt, so a successful prompt is never empty |
| Text.Split | components/VectorTool.tsx:251 | Joining the pieces with the separator gives back the input |
| Text.SplitJoin | components/VectorTool.tsx:251 | Splitting a join of separator-free pieces gives back the pieces |
| Text.FirstPiece | components/TrendsTool.tsx:43 | `split(c)[0]` is the longest prefix free of `c`, and `c` follows it when it is shorter than the input |
| Text.Trim | components/VectorTool.tsx:251 | The result is the slice of the input left after cutting white space off both ends, and has no white space at either end itself; a trimmed string is left alone |
| Text.TrimLeadingSpace | components/VectorTool.tsx:251 | Trimming undoes the one space put before a trimmed string |
| Text.UpperAvoidsNewline | components/TrendsTool.tsx:37 | Upper-casing adds no line break |
| ItemStore.NewItem | components/VectorTool.tsx:20-25 | A new item carries the id, file and preview URL it was given, is `pending`, and has no metadata, prompt or error |
| ItemStore.AppendKeepsDistinct | components/VectorTool.tsx:26 | Appending items with fresh, distinct ids keeps every id distinct |
| ItemStore.MarkProcessing | components/VectorTool.tsx:30 | The item becomes `processing` with its error cleared, and nothing else changes |
| ItemStore.MarkFailed | components/VectorTool.tsx:37 | The item becomes `error` with the thrown message, and nothing else changes |
| ItemStore.RemoveId | components/VectorTool.tsx:78 | Removing an id that is not in the list leaves the list as it was |
| ItemStore.RemoveMembers | components/VectorTool.tsx:78 | After removal, the list holds exactly the items whose id differs |
| ItemStore.RemoveKeepsOrder | components/VectorTool.tsx:78 | Removal works piecewise over a concatenation, so the survivors keep their order |
| ItemStore.RemoveKeepsDistinct | components/VectorTool.tsx:78 | Removal keeps ids distinct |
| ItemStore.UpdateAfterRemove | components/VectorTool.tsx:29-38 | A late update for an id that was removed changes nothing |
| ItemStore.UpdateById | components/VectorTool.tsx:30-37 | The update keeps the length and positions: the item with the id becomes `f` of it, every item with another id stays as it was, and nothing changes when the id is absent |
| ItemStore.Eligible | components/VectorTool.tsx:43 | Every item of the snapshot is `pending` or `error` |
| ItemStore.EligibleMembers | components/VectorTool.tsx:43 | The snapshot holds exactly the `pending` and `error` items; `completed` and `processing` ones are not tried again |
| ItemStore.SnapshotIndex | components/VectorTool.tsx:43-44 | An eligible item sits in the snapshot at its index |
| ItemStore.SnapshotTarget | components/VectorTool.tsx:44-46 | While a batch runs, the snapshot's k-th id matches exactly the list position with snapshot index k |
| ItemStore.BatchStart | components/VectorTool.tsx:41-43 | Before the first run, a batch has changed nothing |
| ItemStore.BatchStep | components/VectorTool.tsx:44-46 | Each run of a batch updates exactly the item the snapshot names, and keeps the length |
| VectorTool.MarkAnalyzed | components/VectorTool.tsx:35 | The item becomes `completed` with the metadata, and nothing else changes |
| VectorTool.Processed | components/VectorTool.tsx:29-39 | Id, file, preview and prompt are kept. Success gives `completed` with that metadata and no error. Failure gives `error` with the thrown message and the old metadata |
| VectorTool.UpdateWellFormed | components/VectorTool.tsx:30-37 | An id-preserving update that leaves the target well formed keeps the whole list well formed, with the same ids |
| VectorTool.CompletedHasNoError | components/VectorTool.tsx:30-35 | A processed item is `completed` exactly when analysis succeeded, and then it has no error |
| VectorTool.PreviewFor | components/VectorTool.tsx:23 | The object URL becomes the preview exactly when the MIME type contains `svg`; otherwise the preview is empty |
| VectorTool.NewVectorItems | components/VectorTool.tsx:20-25 | One new `pending` item per file, in order, with its own id and preview |
| VectorTool.TrimAll | components/VectorTool.tsx:251 | Every piece is trimmed, and the count and order are kept |
| VectorTool.ParseTags | components/VectorTool.tsx:251 | Every parsed tag is non-empty and trimmed, and a string is a tag exactly when it is non-empty and the trim of some comma piece of the input; how often each tag occurs is fixed by ParseTagsConcat and ParseTagsPiece |
| VectorTool.ParseTagsOrder | components/VectorTool.tsx:251 | Tags keep the order of the comma pieces they come from |
| VectorTool.ParseTagsConcat | components/VectorTool.tsx:251 | Parsing text around a comma gives the tags of the left side followed by those of the right side, so no tag is merged, dropped or reordered: `"x,,x"` gives `"x"` twice |
| VectorTool.ParseTagsPiece | components/VectorTool.tsx:251 | Text without a comma gives its trim as the single tag, or no tag when the trim is empty |
| Text.SplitConcat | components/VectorTool.tsx:251 | Splitting at a separator character gives the pieces of the text before it followed by the pieces of the text after it |
| VectorTool.TrimAllMembers | components/VectorTool.tsx:251 | A string is among the trimmed pieces exactly when it is the trim of some piece |
| VectorTool.ParseTagsOfJoin | components/VectorTool.tsx:251-252 | Parsing a comma-and-space join of trimmed, non-empty, comma-free tags gives back exactly those tags |
| VectorTool.SplitOfJoin | components/VectorTool.tsx:251 | Splitting such a join at commas gives the tags, each after the first carrying one leading space |
| VectorTool.JoinSpaced | components/VectorTool.tsx:251 | Joining space-prefixed tags with `,` equals joining the tags with `, ` |
| VectorTool.SetTitle | components/VectorTool.tsx:205 | Only the title of the metadata changes; an item without metadata is left alone |
| VectorTool.SetDescription | components/VectorTool.tsx:228 | Only the description of the metadata changes; an item without metadata is left alone |
| VectorTool.AppendTags | components/VectorTool.tsx:252 | The old tags come first, followed by exactly the new ones; nothing else changes |
| VectorTool.Round | components/VectorTool.tsx:63 | The rounded value lies within one half of its argument |
| VectorTool.RoundMonotone | components/VectorTool.tsx:63 | Rounding keeps order |
| VectorTool.ShownProgress | components/VectorTool.tsx:63 | The displayed progress never decreases, and it ends at 100 |
| VectorTool.VectorQueue.constructor | components/VectorTool.tsx:13-16 | The queue starts empty, idle, not zipping, at progress 0 |
| VectorTool.VectorQueue.HandleFileChange | components/VectorTool.tsx:18-27 | Without a file list nothing changes; otherwise the new `pending` items are appended after the old ones, ids stay distinct, and the flags are kept |
| VectorTool.VectorQueue.ProcessFile | components/VectorTool.tsx:29-39 | Exactly the items with that id become their processed form; every other item, the length and the flags are unchanged |
| VectorTool.VectorQueue.ProcessAll | components/VectorTool.tsx:41-48 | Each `pending` or `error` item becomes its processed form under its own outcome, in snapshot order; every other item is unchanged; the run ends idle |
| VectorTool.VectorQueue.RemoveItem | components/VectorTool.tsx:77-79 | The list becomes the old list without that id, still well formed |
| VectorTool.VectorQueue.EditTitle | components/VectorTool.tsx:203-206 | Exactly the target's title is replaced, at any length; everything else is kept |
| VectorTool.VectorQueue.EditDescription | components/VectorTool.tsx:226-229 | Exactly the target's description is replaced; everything else is kept |
| VectorTool.VectorQueue.AddTags | components/VectorTool.tsx:248-254 | Empty or cancelled input changes nothing; otherwise the parsed tags are appended after the target's existing tags |
| VectorTool.VectorQueue.ShowProgress | components/VectorTool.tsx:63 | Each progress report is rounded to the nearest integer, halves up, and shown in turn; the last one shown stays on screen; the item list and the processing and zipping flags are untouched |
| VectorTool.VectorQueue.HandleFullExport | components/VectorTool.tsx:54-70 | With no completed item nothing is produced and nothing changes. Otherwise a fresh archive holds the package, under the dated file name. The displayed progress is the rounded percentage after each item, and the run ends at 100, not zipping. The items stay as they were |
| PromptTool.MarkPrompted | components/PromptTool.tsx:47 | The item becomes `completed` with the prompt, and nothing else changes |
| PromptTool.Prompted | components/PromptTool.tsx:41-51 | Id, file, preview and metadata are kept. Success gives `completed` with the prompt and no error. Failure gives `error` with the thrown message and the old prompt |
| PromptTool.UpdateWellFormed | components/PromptTool.tsx:42-49 | An id-preserving update that leaves the target well formed keeps the whole list well formed |
| PromptTool.CompletedHasNoError | components/PromptTool.tsx:42-47 | A prompted item is `completed` exactly when generation succeeded, and then it has no error |
| PromptTool.NewPromptItems | components/PromptTool.tsx:19-24 | One new `pending` item per file, in order, whose preview is always the object URL |
| PromptTool.PromptQueue.constructor | components/PromptTool.tsx:14-15 | The queue starts empty and idle |
| PromptTool.PromptQueue.HandleFileChange | components/PromptTool.tsx:17-26 | Without a file list nothing changes; otherwise the new items are appended in order with distinct ids |
| PromptTool.PromptQueue.OnPaste | components/PromptTool.tsx:28-39 | An empty clipboard changes nothing; otherwise the pasted images are appended as new items |
| PromptTool.PromptQueue.Append | components/PromptTool.tsx:25 | The new items follow the old ones, and ids stay distinct |
| PromptTool.PromptQueue.ProcessFile | components/PromptTool.tsx:41-51 | Exactly the items with that id become their prompted form; every other item is unchanged |
| PromptTool.PromptQueue.ProcessAll | components/PromptTool.tsx:53-60 | Each `pending` or `error` item becomes its prompted form under its own outcome; every other item is unchanged; the run ends idle |
| PromptTool.PromptQueue.RemoveItem | components/PromptTool.tsx:62-64 | The list becomes the old list without that id, still well formed |
| CsvFormat.UnescapeEscape | utils/fileHelpers.ts:27-28 | Turning `""` back into `"` recovers any escaped text |
| CsvFormat.EscapeQuotes | utils/fileHelpers.ts:27-28 | Every double quote doubled; its inverse is `UnescapeEscape` |
| CsvFormat.EscapeWithoutQuotes | utils/fileHelpers.ts:27-28 | Escaping leaves quote-free text unchanged |
| CsvFormat.EscapeKeepsChars | utils/fileHelpers.ts:27-28 | Escaping adds and removes no character other than `"` |
| CsvFormat.ParseEncodeRecord | utils/fileHelpers.ts:29 | A record of quoted, escaped fields joined by commas reads back as the same fields |
| CsvFormat.StrayQuoteBreaksRecord | utils/fileHelpers.ts:29 | A quoted field with an unescaped inner quote does not read as a record |
| FileHelpers.StripExtension | utils/fileHelpers.ts:26 | The base is a prefix of the name that ends just before the last extension dot; a name with no extension is kept whole |
| FileHelpers.EpsName | utils/fileHelpers.ts:26 | The CSV file name is the name with its final extension removed, then `.eps` |
| FileHelpers.ExtensionAtUnique | utils/fileHelpers.ts:26 | The end-anchored extension expression can match at one position at most |
| FileHelpers.EpsNameReplacesExtension | utils/fileHelpers.ts:26 | A name with a real extension has exactly that extension replaced by `.eps` ("x.svg" gives "x.eps") |
| FileHelpers.EpsNameWithoutExtension | utils/fileHelpers.ts:26 | A name without an extension is kept whole and gets `.eps` appended |
| FileHelpers.Exportable | utils/fileHelpers.ts:22-23 | Every exported item has metadata |
| FileHelpers.ExportableMembers | utils/fileHelpers.ts:22-23 | Exactly the completed items with metadata are exported |
| FileHelpers.CsvRows | utils/fileHelpers.ts:24-30 | One row per exported item, in order: row k is the row of the k-th exportable item |
| FileHelpers.CsvRowEndsWithQuote | utils/fileHelpers.ts:29 | Every row ends with the closing quote of its last field |
| FileHelpers.CsvRow | utils/fileHelpers.ts:24-29 | The five quoted fields joined by commas; it is the RFC 4180 record of its values by `CsvRowIsRecord` |
| FileHelpers.GenerateCsv | utils/fileHelpers.ts:20-33 | The CSV starts with the header, is the header alone when nothing is exportable, and ends without a line break |
| FileHelpers.CsvLastLine | utils/fileHelpers.ts:32 | The last line is never empty |
| FileHelpers.CsvRowReadsBack | utils/fileHelpers.ts:24-29 | A row reads back as the file name, title, comma-joined keywords, category and releases, when the name has no quote |
| FileHelpers.CsvRowIsRecord | utils/fileHelpers.ts:27-29 | A row is exactly the RFC 4180 record of its five values, when the name has no quote |
| FileHelpers.QuoteInFileNameBreaksRow | utils/fileHelpers.ts:26-29 | A file named `a"b.svg` yields a row that does not read as a record, because the name is not escaped |
| FileHelpers.CsvRowsAppend | utils/fileHelpers.ts:22-30 | The rows of two lists in sequence are the rows of each in sequence, so export order is list order |
| FileHelpers.CsvRowSingleLine | utils/fileHelpers.ts:24-29 | A row has no line break when the name, title and tags have none |
| FileHelpers.CsvLines | utils/fileHelpers.ts:20-33 | When no file name, title or tag contains a line break, splitting the CSV at line breaks gives the header followed by one row per exported item |
| FileHelpers.CompletedItems | utils/fileHelpers.ts:80 | Every item kept is completed |
| FileHelpers.CompletedMembers | utils/fileHelpers.ts:80 | Exactly the completed items are kept |
| FileHelpers.CsvOfCompleted | utils/fileHelpers.ts:80-84 | The package's CSV of the completed items equals the CSV of the whole list |
| FileHelpers.Archive.constructor | utils/fileHelpers.ts:79 | A new archive is empty |
| FileHelpers.Archive.AddFile | utils/fileHelpers.ts:84 | Adding a file sets that path and leaves every other entry |
| FileHelpers.Archive.AddFolder | utils/fileHelpers.ts:86-87 | A folder is the name with `/`, recorded as a folder entry |
| FileHelpers.StartArchive | utils/fileHelpers.ts:79-87 | A fresh archive holds the manifest and the `eps/` and `pin/` folders |
| FileHelpers.AddItemFiles | utils/fileHelpers.ts:91-107 | One item adds its source under `eps/` and, when rasterising succeeds, its preview under `pin/` |
| FileHelpers.AddAllItems | utils/fileHelpers.ts:89-111 | The loop packs every completed item in order and reports the progress after each |
| FileHelpers.Reports | utils/fileHelpers.ts:109-110 | The k-th report is the share of items done after item k |
| FileHelpers.Progress | utils/fileHelpers.ts:110 | The percentage is at most 100 while some items remain, exactly 100 after the last, and positive after the first |
| FileHelpers.GenerateStockZip | utils/fileHelpers.ts:78-116 | A fresh archive holds the package of the list; one progress report per completed item; the dated file name |
| FileHelpers.PackageFileName | utils/fileHelpers.ts:116 | `adobe_stock_package_` plus the date part of the timestamp, which is everything before the first `T`, plus `.zip` |
| FileHelpers.ItemPathsDiffer | utils/fileHelpers.ts:95-103 | A source path and a preview path never collide |
| FileHelpers.ItemPathsInjective | utils/fileHelpers.ts:91-103 | Two items share a source path, or a preview path, exactly when their base names agree |
| FileHelpers.PackItemsKeepsOthers | utils/fileHelpers.ts:90-111 | The loop touches no entry outside the item paths |
| FileHelpers.PackItemsWritesItem | utils/fileHelpers.ts:94-104 | Every packed item's source is present, and so is its preview when rasterising succeeds |
| FileHelpers.PackItemsWritesOnly | utils/fileHelpers.ts:90-111 | Every new entry is the source or preview path of a packed item |
| FileHelpers.PackItemsExact | utils/fileHelpers.ts:90-111 | With distinct base names, each item's source entry holds its file, and its preview entry exists exactly when rasterising succeeds and holds that JPEG |
| FileHelpers.PackItemSelf | utils/fileHelpers.ts:91-107 | One step writes the item's source, and its preview exactly when rasterising succeeds |
| FileHelpers.PackItem | utils/fileHelpers.ts:90-107 | One loop step; what it writes is `PackItemSelf` and what it leaves is `PackItemOther` |
| FileHelpers.PackItemOther | utils/fileHelpers.ts:91-107 | One step leaves the paths of an item with another base name untouched |
| FileHelpers.PackItemsPinOrigin | utils/fileHelpers.ts:99-104 | Every preview in the package comes from a packed item whose rasterising succeeded |
| FileHelpers.ArchiveManifest | utils/fileHelpers.ts:83-87 | The package holds the CSV of the list as `metadata.csv`, plus the two folders |
| FileHelpers.ArchiveHoldsCompleted | utils/fileHelpers.ts:80-107 | Every completed item's source is packed, and so is its preview when it rasterises. Every entry is the manifest, a folder, or a path of a completed item |
| FileHelpers.ArchiveExact | utils/fileHelpers.ts:90-107 | With distinct base names, each completed item's entries hold exactly its source and, when it rasterises, its JPEG |
| FileHelpers.ProgressRange | utils/fileHelpers.ts:109-110 | Each report is in (0, 100] and the last is 100 |
| FileHelpers.ProgressIncreases | utils/fileHelpers.ts:109-110 | Reports strictly increase |
| FileHelpers.PreviewScale | utils/fileHelpers.ts:46-49 | The preview scale is positive, and it enlarges any image under 3000 pixels |
| FileHelpers.GrownEdge | utils/fileHelpers.ts:49-52 | A scaled edge is positive, at most 3000, and exactly 3000 for the longest edge |
| FileHelpers.PreviewLongEdge | utils/fileHelpers.ts:46-52 | The preview canvas fits within 3000 on both sides, and its long side is exactly 3000 |
| FileHelpers.PreviewCanvas | utils/fileHelpers.ts:47-52 | The canvas is each dimension (fallback 1000) times the preview scale; its bounds are `PreviewLongEdge` |
| TrendsTool.FetchError | components/TrendsTool.tsx:19 | The shown error is never empty; it is the thrown message when there is one, and otherwise the fallback text |
| TrendsTool.ExportFileName | components/TrendsTool.tsx:43 | `stock_trends_` plus the date part of the timestamp, which is everything before the first `T`, plus `.txt` |
| TrendsTool.ExportText | components/TrendsTool.tsx:29-44 | The report opens with the title line and always ends with a blank line |
| TrendsTool.BlocksEndBlank | components/TrendsTool.tsx:36-41 | The blocks are empty or end with the blank line after a rule |
| TrendsTool.ExportTitleChars | components/TrendsTool.tsx:32 | The title is a single line and has no colon, so it is never taken for a `CATEGORY:` line |
| TrendsTool.BlocksSnoc | components/TrendsTool.tsx:36-41 | The loop adds one block per category, in order |
| TrendsTool.AllBlockLines | components/TrendsTool.tsx:36-41 | Five lines per category |
| TrendsTool.BlockIsJoin | components/TrendsTool.tsx:37-40 | A block is its five lines, each ended by a line break |
| TrendsTool.HeaderIsJoin | components/TrendsTool.tsx:32-34 | The header is its four lines, each ended by a line break |
| TrendsTool.PrefixIsJoin | components/TrendsTool.tsx:32-41 | The header and blocks are the whole line list, each line ended by a line break |
| TrendsTool.ExportIsJoin | components/TrendsTool.tsx:32-41 | The report is its lines joined by line breaks |
| TrendsTool.AllBlockLinesAt | components/TrendsTool.tsx:36-41 | The k-th group of five lines is the k-th category's block |
| TrendsTool.HeaderLinesSingle | components/TrendsTool.tsx:32-34 | The header lines have no line break when the date has none |
| TrendsTool.BlockLinesSingle | components/TrendsTool.tsx:37-40 | A block's lines have no line break when the category's fields have none |
| TrendsTool.LinesAreSingle | components/TrendsTool.tsx:32-41 | No report line contains a line break |
| TrendsTool.ExportShape | components/TrendsTool.tsx:32-41 | When no field (date, category, description, keyword) contains a line break, reading the report line by line gives the title, date, rule and blank line. Then come five lines per category, in order: the upper-cased category, why it trends, the keywords joined with `, `, a rule and a blank line |
| TrendsTool.ExportBlockSlices | components/TrendsTool.tsx:36-41 | Category k's block sits at lines 4+5k to 8+5k |
| TrendsTool.BlockHasOneCategoryLine | components/TrendsTool.tsx:37-40 | A block has exactly one `CATEGORY:` line |
| TrendsTool.BlocksCategoryLines | components/TrendsTool.tsx:36-41 | The blocks hold one `CATEGORY:` line per category |
| TrendsTool.CategoryLineCount | components/TrendsTool.tsx:32-41 | The report's line list has exactly one `CATEGORY:` line per category, whatever the fields hold |
| TrendsTool.DownloadedCategoryLines | components/TrendsTool.tsx:32-41 | When no field (date, category, description, keyword) contains a line break, the downloaded text split at line breaks has exactly one `CATEGORY:` line per category |
| TrendsTool.TrendsState.constructor | components/TrendsTool.tsx:8-10 | No trends, not loading, no error |
| TrendsTool.TrendsState.StartFetch | components/TrendsTool.tsx:13-14 | Loading is on and the error is cleared; trends are kept |
| TrendsTool.TrendsState.FinishFetch | components/TrendsTool.tsx:15-21 | Loading is off. Success replaces the trends. Failure keeps them and shows the error |
| TrendsTool.TrendsState.FetchTrends | components/TrendsTool.tsx:12-23 | A fetch ends not loading. On success it has the new trends and no error. On failure it has the old trends and a non-empty error |
| TrendsTool.TrendsState.HandleExport | components/TrendsTool.tsx:29-44 | Nothing is downloaded exactly when there are no trends; otherwise the report text is downloaded as plain text under the dated name |
| TrendsTool.AppendBlock | components/TrendsTool.tsx:37-40 | One loop step appends exactly one category's block |

## Left out

- The network, the Gemini SDK, the JSON schema and `JSON.parse` are outside the model. `FileReader`, `Image`, `canvas` and `toDataURL` are too. Their results are parameters (outcome lists, decoded images, a rasteriser, a parse function).
- Async interleaving: a batch is modelled as sequential runs. A second handler firing while `await` is pending is not modelled.
- `Math.random` ids and `URL.createObjectURL` are inputs. Ids are required to be fresh.
- `downloadFile`, `generateAsync`, the anchor click, `alert`, the clipboard event and object-URL revocation are left out; they are I/O. `handleExportCSV` (`VectorTool.tsx:72-75`) is `GenerateCsv` followed by such a download.
- ZIP entry order and compression: the archive is a map from path to entry. JSZip's folder objects are modelled as the path prefix `eps/` or `pin/`.
- The `useEffect` that fetches trends on mount (`TrendsTool.tsx:25-27`) is one call of `FetchTrends`. `getTrendingKeywords` and the `TrendingCategory` type are not part of this model. A local `TrendCategory` has the three fields the report reads.
- `App.tsx`'s tab switching is left out. `AppTab` is modelled only as its two values.
- The UI's `disabled` guards and the title counter's colour (`VectorTool.tsx:195-196`) are display only. Titles of any length are accepted.
- VectorTool.VectorQueue.HandleFullExport: the catch branch that alerts on a failed `generateAsync` is not modelled. Preview failures are already swallowed per item, so nothing else in the package can throw.
- VectorTool.VectorQueue.EditTitle, VectorTool.VectorQueue.EditDescription and VectorTool.VectorQueue.AddTags require that the target has metadata. This mirrors the non-null assertion (`!`) in the source. The editors are only shown for completed items with metadata.
- FileHelpers.CsvRowReadsBack and FileHelpers.CsvRowIsRecord require a quote-free file name. The source does not escape that field; FileHelpers.QuoteInFileNameBreaksRow shows what happens otherwise.
- Gemini.AnalysisCanvas and FileHelpers.PreviewCanvas give canvas sizes as reals. The truncation to whole pixels when assigning `canvas.width`, the JPEG quality (0.85 for analysis, 0.95 for previews) and the white fill are not modelled.
- Text.Lower and Text.Upper fold ASCII letters only. JavaScript folds all of Unicode, so a category or file name with non-ASCII letters is cased differently.
- Date formatting (`toLocaleDateString`, `toISOString`) is left out. Both strings are parameters.
- FileHelpers.Progress computes in exact rationals. The source divides in IEEE doubles, so a report such as 1/3 of 100 is 33.33333333333333 there. Rounding for display (`VectorTool.Round`) is applied to the exact value.
- FileHelpers.CsvLines, TrendsTool.ExportShape and TrendsTool.DownloadedCategoryLines require that no field holds a line break. The source quotes or copies such text unchanged, so a title with a line break adds a CSV line, and a description such as "x\nCATEGORY: y" adds a second `CATEGORY:` line to the downloaded report.
