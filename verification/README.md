# ineo-collaboration core in Dafny

This project models the pure logic of the INEO collaboration pipeline. The pipeline harvests tool and dataset metadata, merges it with rich user content (RUC) written in markdown, and fills JSON templates for the INEO portal. The model covers these parts:

- **The template resolver** (`Template`). It walks a JSON template and resolves each `<ruc:path,null,...` instruction against the RUC mapping. A slot that resolves to nothing is left out, `"null"` becomes an explicit null, and plain scalars are dropped.
- **Shared helpers** (`Utils`). These are id-from-file-name, text shortening, HTML-tag removal, the folder filter and the BaseX URL and escaping rules.
- **Harvester bookkeeping** (`Harvester`, `FairHarvester`). This covers both `compare_lists` variants, the ids read from file names and records, the MD5 change decision of `process_list`, the per-document rewrite and id truncation of `store_solr_response`, and `get_canonical`.
- **Rich user content** (`RichContent`). Parsed entries are re-keyed by identifier, and before writing, the title is shortened and the description moved under the new title.
- **`reduce_id`** (`ReduceId`). An over-long id is cut to its suffix, and the file is renamed to match.
- **Vocabulary labelling** (`Vocabs`). A graph entry whose preferred label matches a research-domain title gets `skos:exactMatch` set to `"{index} {title}"`.
- **The pipeline decisions of `main.py`** (`Pipeline`). These are the ids of a JSONL file, the emptiness test, the template selection and the duplicate report.
- **The rating selection** (`Rating`).
- **The Redis plugins** (`UpdatedFiles`, `UpdatedRuc`, `IneoRecord`). These build the updated-files map, merge RUC ids into it and count file types.
- **The handler registry** (`Registry`).

Every operation returns a `Result` when the Python code can raise, so the error paths are part of each contract. Some code is replaced by function parameters: files, Redis, HTTP, MD5 hashing, the markdown-to-text converter, and helpers the model cannot see. The modules `JsonValues`, `Dicts`, `Strings`, `Paths`, `Seqs` and `Wrappers` hold the Python semantics the code relies on. JSON values are a datatype. Dicts are insertion-ordered association lists. `split`, `strip`, `replace`, `lower` and the `os.path` functions are written out.

## Model

| member | source | states |
|---|---|---|
| Template.ResolveSteps | src/template.py:20-31 | when no key of the RUC equals the first step after lower-casing, the loop falls through and nothing is found (Python's implicit `None`) |
| Template.RejoinedRest | src/template.py:17-28 | splitting the re-joined tail `'/'.join(steps[1:])` gives back exactly the remaining steps, so recursing on the joined path equals recursing on the step list |
| Template.ResolveFirstMatch | src/template.py:20-31 | only the first matching key counts: later keys with the same lower-cased name are never consulted, and a non-dict under a deeper path gives nothing |
| Template.ResolveIgnoresKeyCase | src/template.py:22 | two RUCs whose keys agree after lower-casing and whose values agree resolve every path identically |
| Template.RucKey | src/template.py:81 | the key of a `ruc` alternative exists exactly when the alternative contains a `:` (otherwise `IndexError`), and it is already lower case |
| Template.AltHit | src/template.py:79-87 | the value a `ruc` alternative finds is never null: a resolved JSON null counts as not found |
| Template.RetrieveRun | src/template.py:73-101 | the loop of `retrieve_info` is the loop over what each alternative does (raise, hit and stop, or pass, possibly setting `"null"`) |
| Template.RunFirstHit | src/template.py:84-87 | when every alternative before the first hit passes, the hit's value is the answer |
| Template.RunPasses | src/template.py:98-101 | a loop of passes ends with `"null"` when some alternative set it, and otherwise with the value it started from |
| Template.RunErrIff | src/template.py:76-101 | the loop raises exactly when some alternative raises before any alternative hits |
| Template.RetrieveFirstHit | src/template.py:76-87 | the first `ruc` alternative that finds a value decides the result of `retrieve_info`, whatever the earlier `null` alternatives did |
| Template.RetrieveNoHit | src/template.py:76-101 | when no alternative raises and none finds a value, the result is `"null"` exactly when some alternative starts with `null` |
| Template.RetrieveErrIff | src/template.py:76-101 | `retrieve_info` raises exactly when some alternative lacks its `:` (a `ruc` or `err` alternative) and no earlier alternative found a value |
| Template.NotMalformedHit | src/template.py:79-87 | an alternative that finds a value is never one that raises |
| Template.InstructionTextSpan | src/template.py:43-45 | the instruction text is what follows the leading `<` up to the next `<` or the end, and holds no `<` |
| Template.Store | src/template.py:50-54 | the string `"null"` is stored as JSON null, every other value is stored unchanged |
| Template.Traverse | src/template.py:34-71 | a dict template yields a dict, a list template a list, and any other value yields nothing |
| Template.TraverseFields | src/template.py:39-54 | the dict loop succeeds exactly when every value's slot succeeds; the output's keys are a subsequence of the template's keys and no output value is the string `"null"` |
| Template.TraverseItems | src/template.py:56-70 | the list loop succeeds exactly when every item's slot succeeds; the output is no longer than the template and holds no `"null"` string |
| Template.TraverseFieldsGet | src/template.py:39-54 | for a template dict with unique keys, the output holds a key exactly when the template does and that key's slot produced a value, and then holds the stored form of that value |
| Template.TraverseItemsGather | src/template.py:56-70 | the list output is the concatenation, in template order, of what each item's slot produced |
| Template.TraverseItemsAppend | src/template.py:56-70 | a list is processed item by item: the output for a concatenation is the concatenation of the outputs |
| Template.TraverseItemsSingle | src/template.py:58-70 | a one-item list keeps exactly the stored value its slot produced, or nothing when the slot produced none |
| Template.NoInstructionsShape | src/template.py:34-71 | a template without `<` strings never consults the RUC, cannot fail, and yields only nested dicts and lists (its scalar leaves are dropped) |
| Utils.FilterJoin | src/utils.py:56-60 | the filtered listing is never longer than the folder's entries |
| Utils.GetFiles | src/utils.py:39-60 | the listing is missing exactly when the folder does not exist |
| Utils.FilterJoinMembers | src/utils.py:52-60 | a path is listed exactly when it is the folder joined with an entry that ends in `.` plus the postfix (every entry for an empty postfix), and an empty postfix keeps every entry |
| Utils.CallBasex | src/utils.py:63-90 | the call succeeds exactly for the actions `get` and `post` (any other action raises); it sends the query as body with the given content type, as a GET exactly for `get` |
| Utils.CallBasexUrl | src/utils.py:76-79 | the URL always names the user, password, host and port; a non-empty database name is appended as one more path piece after `/rest`, and without one the request is the bare `/rest` request |
| Utils.EscapeJsRemovesTags | src/utils.py:147-148 | after the two replacements neither `<js:` nor `</js:` occurs, and text without `<` is unchanged |
| Utils.CallBasexWithQuery | src/utils.py:126-157 | the request body is the escaped query inside the `<query><text>` envelope, and the call fails only for an invalid action |
| Utils.CallBasexWithFile | src/utils.py:93-123 | the request body is the escaped file text inside the envelope, sent with the default JSON content type, failing only for an invalid action |
| Utils.EnvelopedQueryEscaped | src/utils.py:147-155 | the envelope contains the escaped query, and that text holds no raw `<js:` or `</js:` tag |
| Utils.TagEnd | src/utils.py:194 | the lazy `<.*?>` ends at the first `>` before any newline, and there is none exactly when every `>` comes after a newline |
| Utils.RemoveHtmlTags | src/utils.py:192-195 | the cleaned text is a subsequence of the input: tag removal only deletes characters |
| Utils.RemoveHtmlTagsKeepsNewlines | src/utils.py:194-195 | no newline is ever deleted, because `.` does not match one |
| Utils.RemoveHtmlTagsNoTag | src/utils.py:194-195 | no tag is left: every remaining `<` is followed by a newline before any later `>` |
| Utils.RemoveHtmlTagsPlain | src/utils.py:192-195 | text without `<` is returned unchanged |
| Utils.RewriteEmptyBraces | src/utils.py:203-204 | a leading `{}` becomes `{code:und}`, and text without that prefix is unchanged |
| Utils.ShortenText | src/utils.py:198-205 | for a non-negative limit the result is at most `limit` characters plus the marker; converted text within the limit is returned as is |
| Utils.ShortenTextPrefix | src/utils.py:205 | the result begins with the first `limit` characters of the converted text (all of it when shorter) and carries the marker exactly when something was cut |
| Utils.ShortenListOrString | src/utils.py:208-218 | a string is shortened directly; a list is shortened item by item to a list of the same length, and succeeds exactly when every item is a string; any other value raises `TypeError` |
| Utils.GetIdFromFileNameSpec | src/utils.py:221-225 | the id of `p.ext` (an extension without `.`) is the basename of `p`, and a name without any `.` gives the empty id |
| Harvester.Basenames | src/harvester.py:258-259 | one stripped name per listed path |
| Harvester.BasenamesAreBasenames | src/harvester.py:258-259 | each stripped name is the path's basename: the piece after its last `/` |
| Harvester.Minus | src/harvester.py:261-276 | the set difference as a list: each name of the first list that is not in the second, exactly once |
| Harvester.CompareListsSymmetricDifference | src/harvester.py:247-278 | `compare_lists` returns the symmetric difference of the two basename sets without repetitions, with every name found only in the first list before every name found only in the second |
| Harvester.CompareListsNone | src/harvester.py:251-254 | a missing list behaves exactly like an empty one, on either side |
| Harvester.RucIdFromFileNameSpec | src/harvester.py:304-307 | the RUC id is the basename up to its first dot: a dot-free prefix of the basename that ends at a dot or at the end |
| Harvester.IdsFromChangeList | src/harvester.py:656-657 | at most one id per name, and no id contains a dot |
| Harvester.IdsFromChangeListAppend | src/harvester.py:656-657 | the ids of a concatenation are the ids of each part in order, and a single name contributes its stem exactly when it ends in `.json` |
| Harvester.IdFromChangeListName | src/harvester.py:657 | the stem of a `.json` name is a proper prefix of it that ends where the first dot is |
| Harvester.IdFromField | src/harvester.py:310-316 | a present `identifier` wins (a null one raises and is not replaced by `id`), otherwise `id` is used, and a record with neither raises; a found id is never null |
| Harvester.ListedPaths | src/harvester.py:335 | each listed name is joined to the folder and normalised, in list order |
| Harvester.ChangedPaths | src/harvester.py:338-340 | a path counts as changed exactly when it is listed and no previous batch exists or its recorded hash differs from its current one |
| Harvester.ChangedIdsSpec | src/harvester.py:334-343 | the ids `process_list` appends are `get_id_from_field` of each changed path, in list order, failing with the error of the first changed path that has no id |
| Harvester.ChangedIdsOk | src/harvester.py:334-343 | the loop finishes exactly when every changed path has an id, and then appends exactly one id per changed path, in order |
| Harvester.Rows | src/harvester.py:347-348 | one row per processed path with its current hash and the batch timestamp |
| Harvester.ProcessList | src/harvester.py:319-349 | every listed path gets a row with its current hash; the ids of the changed files are appended to the caller's list; on a changed file without an id the loop stops before that file's row, with the earlier rows committed and the earlier ids appended |
| Harvester.ChangedIdsStep | src/harvester.py:337-344 | one loop step: an unchanged file adds nothing, a changed one adds its id or raises |
| Harvester.ChangedIdsPrefixErr | src/harvester.py:343 | a failure on an early file is a failure of the whole list |
| Harvester.ChangedIdsCases | src/harvester.py:338-343 | with no previous batch a file always counts as changed; a file whose hash matches the previous batch adds no id |
| Harvester.TruncateIdPrefix | src/harvester.py:642-643 | an id longer than 128 keeps exactly its first 128 characters, and a shorter one is kept whole |
| Harvester.CleanDescriptions | src/harvester.py:630-633 | the tags are removed from every description item, and the step succeeds exactly when every item is a string |
| Harvester.ShortDescriptions | src/harvester.py:636 | each string description item is shortened to 297 characters plus the marker |
| Harvester.ShortenStrings | src/harvester.py:636 | shortening a list of strings cannot fail |
| Harvester.RewriteFields | src/harvester.py:630-636 | rewriting name and description leaves the `id` field as it was |
| Harvester.RewriteFieldsSpec | src/harvester.py:630-636 | the rewritten description is every original item cleaned of tags and then shortened, and the name is the shortened original name |
| Harvester.StoreSolrDoc | src/harvester.py:628-649 | a stored document is the rewritten record, written to the folder under its id truncated to 128 characters plus `.json`; it requires a present, non-null string id |
| Harvester.StoreSolrDocFields | src/harvester.py:630-645 | the stored document has its description cleaned and shortened, its name shortened, and its id untouched |
| Harvester.StoreSolrDocName | src/harvester.py:642-645 | for an id without `/` the file's basename is the truncated id plus `.json` |
| Harvester.RucOutputPath | src/harvester.py:458-462 | an entry is written to a `.json` file under the `rich_user_contents` folder |
| Harvester.ShortTitleKept | src/harvester.py:465-468 | a title of at most 67 characters that the converter leaves alone is not shortened |
| Harvester.SolrFileName | src/harvester.py:642-645 | a document with a slash-free id is written to a file named after its possibly truncated id plus `.json` |
| Harvester.CleanThenShorten | src/harvester.py:631-636 | cleaning the description of tags and then shortening it is the same as doing both item by item |
| RichContent.IdentifierOf | plugins/harvest_ruc.py:129 | the identifier is read exactly when the entry is a dict whose `identifier`, if present, is a string; a missing one gives the empty string and a present one is lower-cased |
| RichContent.EntryKey | plugins/harvest_ruc.py:128-136 | an entry keeps its file name when the lower-cased stem equals the identifier, and is stored under the identifier otherwise |
| RichContent.RekeyPairs | plugins/harvest_ruc.py:128-136 | re-keying succeeds exactly when every entry has a key, and then pairs each entry's data with its key, in mapping order |
| RichContent.RekeyLastWins | plugins/harvest_ruc.py:127-136 | the new mapping holds, under an entry's key, that entry's data whenever no later entry is re-keyed to the same key |
| RichContent.RekeyKeys | plugins/harvest_ruc.py:127-138 | the keys of the new mapping are exactly the keys some entry is re-keyed to |
| RichContent.RekeyErr | plugins/harvest_ruc.py:129 | re-keying fails exactly when some entry is not a dict or has a non-string identifier |
| RichContent.SerializeEntry | plugins/harvest_ruc.py:157-168 | a rewritten entry is a dict, and the rewrite succeeds only for a dict whose title (default `""`) is a string |
| RichContent.PlaceDescription | plugins/harvest_ruc.py:160-168 | placing the description always yields a dict |
| RichContent.SerializeEntryStep | plugins/harvest_ruc.py:157-168 | an entry with a string title first has its title replaced by the shortened title, then its description placed |
| RichContent.SerializeOnlyTitle | plugins/harvest_ruc.py:159-161 | an entry with no value, or a null one, under its original title has only its `title` replaced and every other key untouched |
| RichContent.PlaceFound | plugins/harvest_ruc.py:160-168 | a non-null value under the original title is shortened and stored in place or moved to the new title |
| RichContent.SerializeInPlace | plugins/harvest_ruc.py:162-164 | a title that shortening leaves alone keeps its shortened description under the same key, and every other key is untouched |
| RichContent.SerializeMoved | plugins/harvest_ruc.py:165-168 | a shortened title moves its shortened description under the new title, and the original-title key is gone; every other key is untouched |
| RichContent.RucJsonPath | plugins/harvest_ruc.py:156 | an entry is written to a `.json` file |
| RichContent.RucJsonPathBasename | plugins/harvest_ruc.py:156 | the file's basename is the basename of the key's stem plus `.json` |
| RichContent.SerializeAll | plugins/harvest_ruc.py:155-171 | serialising succeeds exactly when every entry's rewrite succeeds, and then gives one file per entry, in mapping order, holding that entry's rewritten content |
| RichContent.InPlaceFields | plugins/harvest_ruc.py:159-164 | under an unchanged title the entry holds the title and the shortened description under it, and every other field as before |
| RichContent.MovedFields | plugins/harvest_ruc.py:159-168 | under a shortened title the description moves to the new title, the old title key is gone, and every other field is as before |
| ReduceId.NewIdSuffix | src/reduce_id.py:34 | for a limit between 1 and the id's length the new id is the id's suffix of exactly that length; a limit of 0 keeps the whole id (`-0` is `0` in Python) |
| ReduceId.IdNoSlash | src/utils.py:221-225 | the id taken from a file name never contains `/` |
| ReduceId.RenamedPathShape | src/reduce_id.py:32-35 | the renamed file is named after the new id plus `.json` and stays in the original file's folder |
| ReduceId.LongFiles | src/reduce_id.py:25-28 | the over-long files are files of the listing whose id exceeds the limit |
| ReduceId.Rewritten | src/reduce_id.py:39-41 | the record can take the new id exactly when it is a dict, and then its `id` holds the new id |
| ReduceId.RewritesStepOk | src/reduce_id.py:25-45 | one more file fails the run exactly when its id is too long and its record is not a dict |
| ReduceId.RewritesOk | src/reduce_id.py:25-45 | the loop finishes exactly when every over-long file's record is a dict |
| ReduceId.RewritesSpec | src/reduce_id.py:25-45 | the rewrites are exactly the over-long files, in listing order, each given its record with the new `id` and renamed next to itself under the new id |
| ReduceId.ReduceIds | src/reduce_id.py:12-48 | a missing folder raises before anything is done; otherwise the run finishes exactly when every rewrite succeeds, with the counter equal to the number of rewrites, and on failure it stops at an over-long file whose record cannot take the new id, with the rewrites before it done and that file counted |
| ReduceId.ReduceList | src/reduce_id.py:24-45 | the loop over a listing does the rewrites in order and stops at the first over-long file whose record is not a dict, keeping the rewrites before it |
| ReduceId.RewritesStop | src/reduce_id.py:39-41 | a failing over-long file stops the run there and fails the run over the whole listing |
| ReduceId.RewritesPrefixStep | src/reduce_id.py:25-45 | one loop step: a short id changes nothing, an over-long id adds its rewrite or raises |
| ReduceId.RewritesPrefixErr | src/reduce_id.py:39-41 | a failure on an early file is a failure of the whole listing |
| ReduceId.NoLongFiles | src/reduce_id.py:28 | a listing without over-long ids rewrites nothing |
| FairHarvester.CanonFileName | src/FAIRdatasets_tools_harvester.py:35 | the canonical copy is written next to the original, its name being the original's plus `.canon` |
| FairHarvester.PurgeReview | src/FAIRdatasets_tools_harvester.py:39-40 | the review's `@id` and `datePublished` become `__canon_purge__` and every other review field is unchanged |
| FairHarvester.GetCanonical | src/FAIRdatasets_tools_harvester.py:36-42 | the canonical form exists only for records on which the `'review' in data` test can run (a dict, list or string) |
| FairHarvester.GetCanonicalSpec | src/FAIRdatasets_tools_harvester.py:37-42 | a record without `review` is unchanged; a record with one succeeds exactly when the review is a dict, and then differs from the original in exactly the review's `@id` and `datePublished`, both set to `__canon_purge__` |
| FairHarvester.GetCanonicalIdempotent | src/FAIRdatasets_tools_harvester.py:29-45 | canonicalising a canonical record changes nothing |
| FairHarvester.GetJsonFiles | src/FAIRdatasets_tools_harvester.py:117-128 | the listing is missing exactly when the folder is, and is never longer than the folder's entries |
| FairHarvester.GetJsonFilesMembers | src/FAIRdatasets_tools_harvester.py:124-127 | a path is listed exactly when it is `{folder}/{name}` for an entry ending in `.json` |
| FairHarvester.Prefixed | src/FAIRdatasets_tools_harvester.py:171-179 | each name is written behind the prefix and a `/`, in order |
| FairHarvester.CompareListsPrefixedSpec | src/FAIRdatasets_tools_harvester.py:151-181 | the result is the first part followed by the second; the first part holds exactly the basenames only in the first list, each behind the first segment of the first list's first path (nothing when that list is empty or missing), the second part the same for the second list, and neither part repeats a name |
| FairHarvester.PrefixedSpec | src/FAIRdatasets_tools_harvester.py:171-179 | prefixing distinct names keeps them distinct, and lists exactly the prefixed names |
| FairHarvester.PurgeTwice | src/FAIRdatasets_tools_harvester.py:39-40 | purging the review's volatile fields twice is purging them once |
| Vocabs.Labels | src/vocabs/vocabs.py:12 | the label list holds exactly the `skos:prefLabel` values of the graph entries that have one |
| Vocabs.Mark | src/vocabs/vocabs.py:19-23 | every graph entry whose `skos:prefLabel` equals the title gets `skos:exactMatch` set to the text, every other entry is unchanged, and the graph keeps its length and order |
| Vocabs.Apply | src/vocabs/vocabs.py:15-23 | the loop over the domain entries keeps the graph's length |
| Vocabs.LabelVocabulary | src/vocabs/vocabs.py:12-23 | the script succeeds only on an NWO document that is a dict, and yields a dict |
| Vocabs.Title | src/vocabs/vocabs.py:17 | an entry has a title exactly when `result_entry['title']` does not raise, and then it is that value |
| Vocabs.LastWithTitle | src/vocabs/vocabs.py:15-23 | the position found is the last domain entry with the wanted title, and there is none exactly when no entry has that title |
| Vocabs.ApplyLastWins | src/vocabs/vocabs.py:15-23 | after the loop each graph entry is as the last domain entry whose title equals its label decides: it carries that entry's `"{index} {title}"` as `skos:exactMatch`, and an entry without a label or with a label no title equals is unchanged |
| Vocabs.SetTwice | src/vocabs/vocabs.py:23 | writing `skos:exactMatch` twice keeps the second value |
| Vocabs.ExpectedLabel | src/vocabs/vocabs.py:23 | marking an entry never changes its label or its being a dict |
| Vocabs.LabelVocabularySpec | src/vocabs/vocabs.py:12-27 | on success only `@graph` changes; it keeps its length, and each entry is labelled by the last domain entry whose title equals its `skos:prefLabel` (exact, case-sensitive), or left unchanged |
| Pipeline.Optional | src/main.py:69-79 | on a dict line a key contributes exactly its value when present and nothing otherwise |
| Pipeline.LineIds | src/main.py:68-79 | a line contributes at most three ids |
| Pipeline.LineIdsOfDict | src/main.py:69-79 | a dict line whose `ruc`, if present, is a dict yields exactly its present ids, in the order `identifier`, `ruc.identifier`, `id` |
| Pipeline.GetIdsAppend | src/main.py:65-81 | the ids of a file are gathered line by line in file order: the ids of two concatenated parts are the ids of the first then the second, and the whole fails exactly when a part fails |
| Pipeline.GetIdsSingle | src/main.py:67-79 | a one-line file yields that line's ids, between none and three, and fails exactly when the line does not parse or a lookup on it raises |
| Pipeline.IsEmpty | src/main.py:42-57 | a file counts as empty exactly when it is missing or every one of its lines is blank after stripping |
| Pipeline.TemplatePath | src/main.py:94 | the tools template is chosen exactly for the type `'tools'`, and the datasets template for every other type |
| Pipeline.RdbPath | src/main.py:95 | RumbleDB reads `/data/c3.jsonl` exactly for the type `'tools'`, and `/data/datasets.jsonl` otherwise |
| Pipeline.TemplateAll | src/main.py:93-103 | the batch makes at most one call per id |
| Pipeline.CallTemplate | src/main.py:84-89 | the call fails exactly when reading the ids fails, and a file without ids makes no templating call |
| Pipeline.TemplateAllSpec | src/main.py:93-103 | ids are templated in order, all with the type's template and RumbleDB path; without a failure every id is templated, and with one the batch stops right after the first failing call, re-raising its error, with every earlier call successful |
| Pipeline.FilesToTemplate | src/main.py:160-170 | the tools file is templated exactly when it is not empty, the datasets file likewise, and tools come first |
| Pipeline.HasDuplicates | src/main.py:145-146 | the report can be made exactly when every id is hashable (building the set raises on a list or dict id) |
| Pipeline.HasDuplicatesSpec | src/main.py:146 | duplicates are reported exactly when some id occurs at two positions |
| Rating.ParseAll | src/rating.py:55-56 | a file that parses gives one record per line |
| Rating.ProcessJsonlSpec | src/rating.py:50-65 | on success every line parsed; the c3 lines are exactly the lines whose identifier is among the rated values or the requested tools, and the rich-content lines exactly those with a `ruc` key, each in file order and chosen independently |
| Rating.ProcessJsonlOrder | src/rating.py:54-65 | both outputs keep file order and hold each line at most as often as the file does |
| Rating.SelectedDict | src/rating.py:57-61 | a dict line with a string identifier is selected exactly when that identifier is in the rated `values` list or among the requested tools |
| Rating.RucIdentifiers | src/rating.py:88 | one identifier per rich-content line |
| Rating.RucIdOfFilter | src/rating.py:20-22 | a line contributes its `ruc.identifier` to `get_ruc_ids` exactly when it has a `ruc` key |
| Rating.RucIdentifiersCons | src/rating.py:88 | the identifiers of a list are those of its head followed by those of its tail |
| Rating.GetRucIdsSpec | src/rating.py:14-23 | `get_ruc_ids` yields `ruc.identifier` of every line with a `ruc` key, in file order, which is the same list `main` logs for the rich-content lines |
| Rating.QueryTextSpec | src/rating.py:37-38 | with a path that cannot itself form a `{JSONL}`, no placeholder remains in the query, and a query without a placeholder is sent unchanged |
| Rating.RatingQuerySubstituted | src/rating.py:38 | the codemeta path the rating query reads leaves no placeholder |
| Rating.QueryRumbledb | src/rating.py:26-43 | any status other than 200 is a failure, and a 200 response's body is parsed as the result |
| Rating.RatingMain | src/rating.py:68-97 | what `main` writes is the c3 lines followed by the rich-content lines, computed from the rated ids that the query returned |
| Rating.RatingMainSpec | src/rating.py:86-97 | the written lines are every selected line followed by every rich-content line, each in file order, so a line that is both appears in both parts |
| UpdatedFiles.FirstFetchedSpec | plugins/get_updated_files.py:18-23 | the field names are tried in order: the value found is that of the first field whose lookup does not raise, and there is none exactly when every lookup raises |
| UpdatedFiles.GetIdentifierSpec | plugins/get_updated_files.py:13-30 | the identifier is the first readable field, failing that the file name's stem; the program exits exactly when no field is readable and the stem is empty |
| UpdatedFiles.IdFieldsOrder | plugins/get_updated_files.py:82 | with the plugin's field list, `id` is preferred over `identifier`, which is preferred over the stem |
| UpdatedFiles.GetPreviousFile | plugins/get_updated_files.py:33-42 | the previous file is the previous folder joined with the current basename, returned exactly when that path exists |
| UpdatedFiles.PreviousOf | plugins/get_updated_files.py:84 | looking up the previous file works exactly when the configured previous folder is a string |
| UpdatedFiles.AssignmentsStep | plugins/get_updated_files.py:80-87 | one more file keeps the loop going exactly when it has an identifier and the previous folder is a string, and adds its `[file, type]` assignment exactly when it changed |
| UpdatedFiles.AssignmentsOk | plugins/get_updated_files.py:80-87 | the loop finishes exactly when every file has an identifier and, unless there are no files, the previous folder is a string |
| UpdatedFiles.AssignmentsSpec | plugins/get_updated_files.py:80-87 | the loop makes exactly one assignment per changed file, in file order, mapping its identifier to `[file, type]` |
| UpdatedFiles.ChangedFilesSnoc | plugins/get_updated_files.py:84-85 | one more file joins the changed files exactly when `diff_files` reports it changed |
| UpdatedFiles.UpdatedKeysUntouched | plugins/get_updated_files.py:63-87 | an identifier that no changed file has keeps its starting value (absent, or the preserved stored value) |
| UpdatedFiles.UpdatedKeysLastWins | plugins/get_updated_files.py:85-86 | an identifier maps to `[file, type]` of the last changed file that has it |
| UpdatedFiles.StartingKeys | plugins/get_updated_files.py:63-77 | a dataset entry that is not a dict raises; when `remove_key_before_update` is missing or truthy the map starts empty; otherwise it starts from the stored map, and a missing key raises `TypeError` |
| UpdatedFiles.ProcessDatasets | plugins/get_updated_files.py:62-93 | the writes can all be computed exactly when each dataset type's can, and then there is one per dataset type, in configuration order |
| UpdatedFiles.DatasetRun | plugins/get_updated_files.py:66-96 | a dataset type that succeeds deletes its key and then stores its new map; one that fails after reading its configuration has still deleted its key, and one that is not a dict changes nothing |
| UpdatedFiles.WriteEffects | plugins/get_updated_files.py:75-93 | each completed dataset type makes exactly two changes |
| UpdatedFiles.WriteEffectsAt | plugins/get_updated_files.py:75-93 | the changes of the `i`-th completed dataset type are its key's deletion followed by the new map stored under that key |
| UpdatedFiles.RunOk | plugins/get_updated_files.py:62-101 | the run completes exactly when every dataset type's write can be computed, and then deletes and stores each key in configuration order |
| UpdatedFiles.RunErr | plugins/get_updated_files.py:62-101 | a run that fails stops at the first dataset type whose write cannot be computed: every earlier key was deleted and stored, that type's own key was deleted, and its error ends the run |
| UpdatedFiles.GetUpdatedFiles | plugins/get_updated_files.py:45-103 | a missing host, port or dataset list, or a missing or null db, exits before any Redis change; with a valid configuration the run is the loop over the dataset types |
| UpdatedFiles.DefaultRemovesKey | plugins/get_updated_files.py:70-75 | without `remove_key_before_update` a dataset type stores only the assignments of its changed files |
| UpdatedFiles.KeptMapLostOnError | plugins/get_updated_files.py:73-77 | a dataset type that keeps its stored map but then fails has deleted its key, so the preserved map is lost |
| UpdatedRuc.FilePairs | plugins/get_updated_ruc.py:20-22 | the loop assigns each listed file, in order, to its identifier |
| UpdatedRuc.GetFileListKeys | plugins/get_updated_ruc.py:10-23 | the identifiers of the file map are exactly those of the files listed in the given folders |
| UpdatedRuc.GetFileListLast | plugins/get_updated_ruc.py:17-22 | an identifier maps to the last listed file that has it |
| UpdatedRuc.UpdateRedisKeySpec | plugins/get_updated_ruc.py:26-36 | after the merge every new key has its new value, every other key its stored value, and a missing stored map counts as empty |
| UpdatedRuc.RucPairsSpec | plugins/get_updated_ruc.py:71-75 | a waiting id that names a known file is set to the one-element list of that file; every other key keeps its value |
| UpdatedRuc.GetUpdatedRuc | plugins/get_updated_ruc.py:54-59 | a missing or falsy `to_merge` parameter raises `ValueError` |
| UpdatedRuc.SetAllUnique | plugins/get_updated_ruc.py:35-36 | assigning into a dict keeps its keys distinct |
| UpdatedRuc.NoRucNoWrites | plugins/get_updated_ruc.py:64-66 | without waiting rich content the plugin returns without touching Redis |
| UpdatedRuc.RucPairsNonEmpty | plugins/get_updated_ruc.py:71-73 | the loop assigns something exactly when some waiting id names a listed file |
| UpdatedRuc.NonDictMergeMap | plugins/get_updated_ruc.py:71-76 | an updated-files value that is not a dict raises `TypeError` when an id is assigned into it or when `len` meets a missing or scalar value, and `AttributeError` at `.items()` for a list or string with nothing assigned |
| UpdatedRuc.GetUpdatedRucSpec | plugins/get_updated_ruc.py:61-93 | on a write, the waiting key is deleted and the updated-files key receives its previous map with every waiting id that names a known file pointing at that file, and nothing else changed |
| IneoRecord.FileType | plugins/generate_ineo_record.py:32-40 | a one-element file info is counted as `"unknown"`, a two-element one under its second element, and any other length is skipped |
| IneoRecord.Count | plugins/generate_ineo_record.py:31-47 | counting succeeds exactly when no entry's file info raises |
| IneoRecord.Types | plugins/generate_ineo_record.py:31-40 | the types read are, entry by entry, those the file infos give |
| IneoRecord.GenerateIneoRecord | plugins/generate_ineo_record.py:27-47 | the summary is computed exactly when the fetched value is a dict whose entries all count; a value without length raises `TypeError` |
| IneoRecord.TotalSet | plugins/generate_ineo_record.py:44-47 | setting one counter changes the sum of the counters by the difference |
| IneoRecord.AddGet | plugins/generate_ineo_record.py:44-47 | counting a type raises its counter by one, starting from 1 for a new type, and leaves every other counter |
| IneoRecord.AddTotal | plugins/generate_ineo_record.py:44-47 | counting a type adds one to the sum; a skipped entry adds nothing |
| IneoRecord.AddUnique | plugins/generate_ineo_record.py:44-47 | counting keeps each type once among the counters |
| IneoRecord.TallySpec | plugins/generate_ineo_record.py:31-47 | after the loop, each type's counter is the number of entries of that type, and a type with no entry has none |
| IneoRecord.TallyTotal | plugins/generate_ineo_record.py:31-47 | the counters add up to the number of entries that were not skipped |
| IneoRecord.TallyUnique | plugins/generate_ineo_record.py:30-47 | each type appears once among the counters |
| IneoRecord.CountSpec | plugins/generate_ineo_record.py:31-47 | each type has exactly as many counted entries as carry that type, and an absent type has no counter |
| IneoRecord.CountPositive | plugins/generate_ineo_record.py:44-47 | every counter present is at least 1 |
| IneoRecord.CountTotal | plugins/generate_ineo_record.py:31-47 | the counters add up to the number of entries whose file info has one or two elements |
| IneoRecord.CountUnique | plugins/generate_ineo_record.py:30-47 | each file type has one counter |
| Registry.Register | src/step01_harvest.py:7-8 | registering binds the name to the class and leaves every other binding as it was |
| Registry.GetHandler | src/step01_harvest.py:11-15 | the lookup gives an instance of the bound class exactly when the name is bound, and `ValueError` otherwise |
| Registry.HarvestData | src/step01_harvest.py:17-19 | harvesting returns what the bound handler's `harvest` returns for the arguments, and `ValueError` for a name that is not bound |
| Registry.RegisterThenGet | src/step01_harvest.py:7-15 | a name just registered is looked up as its new class; every other name as before |
| Registry.RegisterOverwrites | src/step01_harvest.py:7-8 | a second registration of a name replaces the first |
| Registry.RegisterCommutes | src/step01_harvest.py:7-8 | registrations of different names can happen in either order |
| Registry.InitialRegistry | src/step01_harvest.py:22-28 | once the module is loaded only `example` is bound, and harvesting with it returns None |
| JsonValues.PyIn | plugins/generate_ineo_record.py:44 | `in` tests a key of a dict, an element of a list, or a substring of a string, and raises for anything else |
| JsonValues.PyIndex | src/template.py:25 | subscripting succeeds exactly on a dict that has the key, and gives that key's value |
| JsonValues.PyGet | src/harvester.py:313 | `get` exists only on dicts; it gives the stored value of a present key (even a null one) and the default for a missing key |
| JsonValues.PySet | src/harvester.py:635 | item assignment works only on a dict; it sets the key and leaves every other key as it was |
| JsonValues.KeysAsJson | src/template.py:20 | the keys of a dict are visited as strings, in order |
| JsonValues.PyIter | src/template.py:58 | a `for` loop visits a list's items, a dict's keys or a string's characters, and raises on anything else |
| JsonValues.PyLen | src/harvester.py:642 | `len` is defined exactly on lists, dicts and strings, and gives the number of items or characters |
| JsonValues.PyAt | plugins/generate_ineo_record.py:33-37 | an index within a list gives that item; indexing anything but a list or string raises |
| JsonValues.Display | src/utils.py:77 | formatting a string gives the string itself; scalars are formatted and containers are not |
| Dicts.Keys | src/template.py:20 | the keys of a dict are listed in insertion order |
| Dicts.Get | src/harvester.py:313 | a lookup finds nothing exactly when the key is absent, and otherwise gives a value stored under it |
| Dicts.Set | plugins/generate_ineo_record.py:45 | assigning a key makes it hold the new value and leaves every other key |
| Dicts.Remove | src/harvester.py:473 | `pop` removes the key and leaves every other key |
| Dicts.SetKeys | plugins/generate_ineo_record.py:44-47 | assigning an existing key keeps the key order; a new key is appended at the end |
| Dicts.SetUnique | plugins/generate_ineo_record.py:44-47 | assignment keeps the keys of a dict distinct |
| Dicts.SetAllUntouched | plugins/get_updated_files.py:85-86 | a key no assignment names keeps its value |
| Dicts.SetAllLast | plugins/get_updated_files.py:85-86 | a key ends with the value of its last assignment |
| Dicts.SetAllKeys | plugins/get_updated_ruc.py:20-22 | after a series of assignments the keys are the old keys and the assigned ones |
| Dicts.SetSame | src/harvester.py:468-470 | re-assigning a key its current value in a dict with distinct keys changes nothing |
| Dicts.MergeUnique | plugins/get_updated_ruc.py:35-36 | merging one dict into another gives every key of the new dict its new value and every other key its old one |
| Seqs.DistinctIffCard | src/main.py:146 | a list has no duplicates exactly when its set of elements is as large as the list |
| Seqs.FilterSubseq | src/rating.py:55-63 | the kept elements appear in their original order |
| Seqs.NoneMatch | src/main.py:52-55 | the scan answers yes exactly when no element satisfies the condition |
| Seqs.FilterMembers | src/rating.py:55-63 | an element is kept exactly when it occurs and the condition accepts it |
| Seqs.FilterAppend | src/rating.py:55-63 | filtering a concatenation concatenates the filtered parts |
| Strings.Split | src/template.py:17 | `split` gives at least one piece, and no piece contains the separator |
| Strings.SplitThenJoin | src/template.py:17-28 | joining the pieces of a split with the same separator gives back the string |
| Strings.JoinThenSplit | src/template.py:28 | splitting a join of separator-free pieces gives back the pieces |
| Strings.SplitHead | src/harvester.py:306 | the first piece of a split is the longest separator-free prefix |
| Strings.SplitLast | src/harvester.py:258 | the last piece of a split is the longest separator-free suffix |
| Strings.SplitDropLast | src/utils.py:222 | joining all pieces but the last gives what precedes the last separator, and nothing when there is no separator |
| Strings.Lower | src/template.py:22 | lower-casing keeps the length and maps each character to its lower-case form |
| Strings.LowerIdempotent | src/template.py:22 | lower-casing an already lower-cased string changes nothing |
| Strings.TrimLeft | src/template.py:81 | only leading whitespace is cut, and what is kept does not start with whitespace |
| Strings.TrimRight | src/template.py:81 | only trailing whitespace is cut, and what is kept does not end with whitespace |
| Strings.StripIsTrim | src/template.py:81 | `strip` keeps a contiguous part that neither begins nor ends with whitespace and cuts only whitespace on either side |
| Strings.ReplaceAbsent | src/rating.py:38 | text without the pattern is left as it is |
| Strings.ReplaceRemoves | src/utils.py:113-114 | when pattern and replacement share no first character, no occurrence of the pattern survives the replacement |
| Strings.ReplaceNoNewOccurrence | src/utils.py:113-114 | a replacement that shares no first character with a word does not create an occurrence of that word |
| Strings.SliceBound | src/utils.py:205 | a slice bound is clamped into the string |
| Strings.NatToString | src/utils.py:77 | a number is formatted as a non-empty string of decimal digits |
| Strings.NatToStringRoundTrip | src/utils.py:77 | reading the formatted digits back gives the number |
| Paths.RFind | src/harvester.py:305 | the position of the last occurrence, -1 when there is none |
| Paths.Basename | plugins/get_updated_files.py:25 | the basename is a slash-free suffix of the path |
| Paths.BasenameIsLastPiece | src/harvester.py:305 | the basename is the last piece of splitting at `/`, as several call sites compute it |
| Paths.BasenameAppend | src/harvester.py:462 | a slash-free tail adds itself to the basename; a tail with a slash decides it alone |
| Paths.Dirname | src/harvester.py:680 | the directory is a prefix of the path |
| Paths.DirnameSingleSlash | src/harvester.py:680 | without a doubled last slash, the directory is everything before the last slash, `/` for a root entry and empty without a slash |
| Paths.PathJoin | src/harvester.py:683 | the joined path ends with the second part; an absolute second part replaces the first, and otherwise the joined path starts with the first part |
| Paths.JoinBasename | src/harvester.py:645 | joining never changes the basename of the second part |
| Paths.DirnameJoinBasename | src/harvester.py:680-683 | when the last slash is not doubled, joining a path's directory and basename gives back the path |
| Paths.Splitext | src/harvester.py:437 | the stem and the extension concatenate to the path, and the extension is empty or a dot followed by neither a dot nor a slash |
| Paths.SplitextAppend | src/harvester.py:462 | a name with a proper stem splits at the extension appended to it |
| Paths.Normpath | src/harvester.py:335 | normalising never gives the empty path |
| Paths.NormpathPlain | src/harvester.py:335 | a relative path made of plain components is already normal |
| Wrappers.MapResult | src/harvester.py:258-259 | the list is built exactly when no element raises, and then holds each element's result in order |
| Wrappers.MapResultAppend | src/harvester.py:258-259 | mapping a concatenation concatenates the mapped parts |
| Wrappers.MapResultSnoc | src/harvester.py:258-259 | one more element extends the result by its own result, or stops at its error |

## Left out

- Template.ResolveSteps: `lower()` is modelled for the ASCII letters only (`Strings.LowerChar`). Python lower-cases every Unicode letter, so a key such as `"Ä"` matches the step `"ä"` in Python but not in the model.
- Template.RetrieveInfo: the `ruc` path is stripped and lower-cased with the same ASCII-only `lower()`. `strip()` uses exactly the characters for which Python's `str.isspace()` holds.
- RichContent.Rekey: the identifier and the file-name stem are compared after the same ASCII-only lower-casing (this also applies to `RichContent.IdentifierOf` and `RichContent.EntryKey`).
- Strings.Lower: ASCII letters only, as above. Unicode case mapping is not modelled.
- JsonValues.PyIn: list membership uses structural equality of JSON values. Python `==` differs in two ways: `1 == True`, and dicts compare regardless of key order. The same holds for `Rating.SelectedDict` (`identifier in tools_requests`), `Vocabs.Apply` (the title match), `Pipeline.HasDuplicates` (the set of ids) and `IneoRecord.Count` (`1` and `True` would share one counter in Python).
- JsonValues.Display: formatting a list or dict with an f-string is not modelled and yields an error. Python never raises there. This reaches the vocabulary label `"{index} {title}"` when a title is a container.
- Vocabs.LabelVocabulary: a `@graph` that is not a list (a dict or a string, which Python would iterate) is reported as an error instead of being iterated.
- Harvester.StoreSolrDoc: a document whose `id` is not a string (a list, say, which `len` and the f-string accept) is reported as an error instead of being written.
- JsonValues.Json: numbers are integers only. Floating-point JSON numbers and their formatting are not modelled.
- UpdatedFiles.GetUpdatedFiles: `int(redis_port)` and `int(redis_db)` are not modelled, so a non-numeric port or db does not raise. The same holds for `UpdatedRuc.GetUpdatedRuc` and `IneoRecord.GenerateIneoRecord`. Redis itself is the `stored` parameter.
- UpdatedFiles.StartingKeys: a stored value that is present but is not a dict is treated as the `TypeError` of a missing one. Python would fail only later, at the first assignment, or would store a list back unchanged when no file changed.
- Utils.ShortenListOrString: a list item that is not a string is assumed to make `convert_to_plain_text` raise `TypeError`. That converter is the parameter `plain` and is not part of this model.
- Harvester.Minus: `compare_lists` builds each part with `list(set(a) - set(b))`, whose order depends on string hashing. The model keeps first-occurrence order. Its contracts (`Harvester.CompareListsSymmetricDifference`, `FairHarvester.CompareListsPrefixedSpec`) speak only of membership, distinctness and the first part preceding the second, which hold for every order.
- ReduceId.ReduceIds: `load` is one function for the whole run, so a file renamed earlier in the loop is not seen under its new name by later loads. On an error the model keeps the rewrites already done and the counter, as Python leaves them on disk.
- RichContent.SerializeAll: on a failing entry the model reports the error. The files written for earlier entries are not recorded as effects.
- `get_redis_key`, `set_redis_key`, `delete_redis_key`, `diff_files`, `fetch_key_fron_json`, `get_files_with_postfix`, `get_identifier` and `get_logger` live in `utils/utils.py`, which is not part of this model. They are the parameters `stored`, `differs`, `fetch`, `listing` and `identify`, or are left out. `identify` is a total function: the model assumes the `get_identifier` that `get_file_list` calls never fails, although the plugin's own version of that helper exits on an empty stem (`plugins/get_updated_files.py:27-28`).
- MD5 hashing, reading and writing files, listing folders and checking that a path exists are parameters. The markdown-to-text converter is one too.
- The SQLite change tables (creation, batch queries, previous timestamps and `get_matching_timesamps`) are left out, because they are database plumbing that depends on the clock. The previous batch is given as an optional map from file to hash, and the rows `process_list` inserts are returned as values.
- Network I/O is left out: HTTP downloads, Solr paging with a thread pool, and BaseX, RumbleDB and INEO requests. Only the URL, escape and status rules are modelled. The RumbleDB request is the parameter `post`.
- The git synchronisation (`sync_ruc`) and the markdown/YAML extraction (`extract_ruc`) are left out. Both are process or regular-expression I/O, and the parsed RUC mapping is an input.
- Logging, the stderr `debug` and `error` printing of `src/template.py`, and the module-level script code are left out, because they have no effect on results.
- The `process_list` of `src/FAIRdatasets_tools_harvester.py:202-225` is left out, because it uses a cursor that is never defined. The code after the `return` in `src/harvester.py:835-860` is left out, because it is unreachable.
- Registry.HarvestData: `print` in `ExampleHandler.harvest` is left out; its result, None, is modelled.
