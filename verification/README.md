# A Dafny model of the KoboldCpp document scripts

The repository is a set of Python scripts. They send documents and images to a
KoboldCpp text-generation server and collect what it answers: summaries,
edits, translations, metadata records and image captions. Once the server,
the sentencizer, `ftfy`, the JSON parser and the file system are taken as
inputs, what remains is a set of small sequential algorithms. The scripts hold
several copies of each, and the copies differ, so each copy is modelled as
written:

- **context-size ladder.** `main.find_largest_context` picks the next bucket
  with `bisect_right`. `llmer.find_largest_context` returns the window of
  buckets that fit under the server's maximum context.
- **chunking.** Sentences are grouped into fixed-size chunks. The group size is
  estimated from a sampled token count. A chunk-count policy then keeps
  everything, the first chunk only, or the first chunk plus a random sample of
  the rest.
- **prompt assembly.** There are three styles:
  - start/end wraps keyed by model name (`main.py`, `llmer.py`);
  - the field template of `llmprocessor.get_template`;
  - the constant stub of `utils.py`.
- **JSON extraction.** The two `clean_json` variants and
  `extract_and_validate_json` prefer a fenced block, then fall back to a
  brace span.
- **per-task loops.** Three copies run one entry per task. An exception
  becomes an error entry.
- **classification and normalisation:**
  - the extension tables (`get_file_type`, `get_file_category`,
    `should_include_file`);
  - `clean_text`;
  - `normalize_keys`;
  - the metadata record of `llm-utility.py`;
  - the output naming and resume rules of `get-image-description.py`;
  - the `KCP` correlation key.

Modules follow the scripts:

| module | script |
|---|---|
| `MainScript` | `main.py` |
| `Llmer` | `llmer.py` |
| `LlmProcessor` | `llmprocessor.py` |
| `Tasker` | `tasker.py` |
| `Utils` | `utils.py` |
| `LlmUtility` | `llm-utility.py` |
| `ImageDescription` | `get-image-description.py` |
| `Crawl` | `crawl.py` |

Concepts that are spelled identically in several scripts are defined once:

| module | what it holds |
|---|---|
| `Text` | strip, collapse, find, split, lower and title case, `clean_text` |
| `Json` | JSON values and dictionaries as ordered entry lists |
| `Ladder` | the 16-entry context ladder and `bisect_right` |
| `Chunking` | sentence groups, sampling and the chunk-selection policy |
| `Prompts` | the model wrap table |
| `Sanitize` | the fence, brace-span and trailing-comma regular expressions |
| `Files` | `splitext`, the document-type table and the category table |
| `Wrappers` | `Option` and `Outcome` |

Conventions used throughout:

- A Python exception is an `Outcome.Raised(kind)`, so the crashes the scripts
  can reach are modelled rather than assumed away.
- The remote calls are function-valued inputs: the token count, the maximum
  context, `/generate`, image interrogation, the sentencizer, `ftfy`,
  `json.loads`/`repair_json`, and the language test.
- `random.sample` is a `Sampler` whose draws are constrained only to be valid
  samples (distinct positions of the right number).
- `random.randint` is the drawn digits themselves.
- A Python dictionary is a sequence of `(Key, Value)` entries in insertion
  order. `Put` is `d[k] = v` and `Overlay` is `dict.update` / `{**a, **b}`.

## Model

| member | source | states |
|---|---|---|
| Ladder.BisectRight | main.py:235 | the index returned splits an ascending sequence into the elements at most `x` and those above it |
| Ladder.BucketIn | main.py:234-240 | on an ascending sequence, the smallest element strictly above `x`, and `None` exactly when no element exceeds `x` |
| Ladder.NextBucket | main.py:233-240 | the bucket is a ladder value, strictly greater than the input, with no ladder value between them; `None` exactly from 131072 on |
| Ladder.NextBucketMonotone | main.py:234-240 | a larger input never gets a smaller bucket, and a served input stays served when it shrinks |
| Ladder.NextBucketExamples | main.py:234-240 | concrete buckets: 512 gives 1024, 0 gives 256, 131071 gives 131072, 131072 gives `None` |
| Ladder.NextBucketAtTop | main.py:238-240 | every input from 98304 up to 131071 gets 131072, and exactly the inputs from 131072 on get no bucket |
| Ladder.Between | llmer.py:198 | the filtered ladder keeps, in order, exactly the values between the bounds |
| Llmer.BetweenNonempty | llmer.py:198-202 | the filtered ladder is empty exactly when no ladder value lies between the bounds, which is when `find_largest_context` gives `None` |
| MainScript.FindLargestContext | main.py:233-240 | the method's binary search returns the same bucket as the reference definition `NextBucket` |
| MainScript.Instruction | main.py:211-217 | jobs 0 to 4 have an instruction and no other job has one; job 4 adds no text of its own |
| MainScript.InstructionOfJob | main.py:211-215 | the number each job's method passes looks up that job's own instruction text |
| MainScript.GeneratePrompt | main.py:209-229 | a prompt is produced exactly for the seven known models and jobs 0 to 4, and removing the model's start and end recovers instruction plus text; otherwise `TypeError` |
| MainScript.GeneratePromptInjective | main.py:229 | two texts give the same prompt only if they are equal |
| MainScript.BuildRequest | main.py:147-157 | `max_length` is the bucket of the prompt's token count (a ladder value above the count with none between), `max_context_length` is exactly twice it, and the sampling settings are the job's; a failed count or one past the ladder raises `TypeError` |
| MainScript.RunJob | main.py:168-206 | the job's reply is the server's answer to the request built for it, and the job raises exactly when building the request does |
| MainScript.ExtractAndValidateJson | main.py:271-281 | `"No JSON block found"` exactly when there is no fence; `"Valid JSON"` exactly when the fenced body parses, and then the value is the parse |
| MainScript.ExtractFencedBody | main.py:272-279 | a reply that fences a well-formed body yields that body's parse and `"Valid JSON"` |
| MainScript.MetadataJob | main.py:158-166 | with model `wizard` the answer is the parsed JSON on `"Valid JSON"` and the message string otherwise; other models get the raw reply; a failed wizard call raises `TypeError` |
| MainScript.TextJob | main.py:168-180 | the reply comes back as text, or `None` exactly when the call failed |
| MainScript.ProcessChunkUnknown | main.py:258-268 | exactly the names outside the four tasks raise `ValueError` |
| MainScript.ProcessChunkText | main.py:258-264 | only the metadata task can return something other than text or `None` |
| MainScript.MapChunks | main.py:303 | either every chunk's reply in chunk order, or the first chunk's exception with all earlier chunks answered |
| MainScript.Replies | main.py:303-304 | the replies can be joined exactly when every chunk answered with text, and then they are the texts in chunk order |
| MainScript.Route | main.py:301-314 | the branch a task takes is one of edit, summarize, metadata or none, and it is edit exactly when the name contains `edit` |
| MainScript.RunTasks | main.py:301-314 | the loop keeps every entry that is not a task entry, and never shortens the result |
| MainScript.RunTasksKeys | main.py:301-314 | the loop adds exactly one key per branch some task takes |
| MainScript.RunTasksKeeps | main.py:301-314 | an entry no task writes keeps its value |
| MainScript.RunTasksEdit | main.py:302-304 | when a task edits, the `edit` entry is every chunk's edited text, in order, joined with single spaces |
| MainScript.RunTasksWrites | main.py:301-314 | every branch some task takes has its entry |
| MainScript.RunTasksSample | main.py:305-314 | the `summarize` entry is the reply to `min(4, #chunks)` distinct chunks joined with spaces, the `metadata` entry the same with `min(2, #chunks)` |
| MainScript.RunTasksSampleHere | main.py:305-314 | the last task that takes a sampled branch sets that branch's entry |
| MainScript.DocumentChunks | main.py:290-294 | the chunks of the cleaned document are nonempty and spell its sentences again, in order, with single spaces |
| MainScript.DocumentChunksOutcome | main.py:90-104 | `process_text`'s chunking (main.py:294) raises `TypeError` exactly when the count is not a number, and `ZeroDivisionError` exactly when there are no sentences or the count is zero; otherwise it returns `ceil(n / spc)` chunks that cut the cleaned document's sentences in order into runs of `spc` |
| MainScript.Prepare | main.py:292-299 | the result starts with the file info and Tika's metadata and gains `translate` exactly for a non-English document with `translate` asked for; the later tasks then see the translated chunks |
| MainScript.ProcessText | main.py:282-316 | a finished run chunked the document successfully |
| MainScript.ProcessTextHead | main.py:292 | the result starts with `file_info` and then `tika_metadata` |
| MainScript.ProcessTextKeys | main.py:292-314 | the result's keys are `file_info`, `tika_metadata`, `translate` when translated, and one per branch the tasks took |
| Files.SplitExt | main.py:67 | `os.path.splitext`: the parts concatenate to the name; the extension is empty or one dot followed by a dot-free, slash-free tail; a name without a dot has no extension |
| Files.SplitExtStem | main.py:67 | the extension is nonempty exactly when the last dot of the last component has a non-dot character before it in that component: a cut extension has such a character in the stem, and with no cut every dot after a non-dot of the last component has a later dot |
| Files.ExtAt | main.py:67 | in a plain file name, the last dot that is not leading starts the extension |
| Files.GetFileType | main.py:66-77 | a type exactly for a lower-cased extension the table lists, and that table's type; no extension gives `None` |
| Files.DocumentTypesShape | crawl.py:12-17 | the table lists exactly the twelve extensions, and doc/docx, htm/html, xls/xlsx and ppt/pptx share a type |
| Files.FileTypeOfUpperPdf | crawl.py:11 | `report.PDF` is a PDF: the extension is lower-cased before the lookup |
| Files.FileTypeOfDoubleExtension | crawl.py:11 | only the last extension counts |
| Files.FileTypeWithoutExtension | crawl.py:11-19 | `README` and the dot-file `.txt` have no type |
| Files.Listed | llmprocessor.py:148 | a name lists extensions exactly when it is one of the nine categories |
| Files.GetFileCategory | llmprocessor.py:150-154 | a category other than `"other"` exactly when some category lists the extension, and then the first one in declaration order |
| Files.CategoryFromSpec | llmprocessor.py:150-154 | the scan from any position finds the first category after it that lists the extension |
| Files.CategoryOfJs | llmprocessor.py:112-113 | `js` is filed under `web`, which comes before `code` |
| Files.CategoryOfPdf | llmprocessor.py:150-154 | `pdf` is a document |
| Crawl.IncludedWithoutFilter | crawl.py:59 | without `--types` exactly the files with a document type are kept |
| Crawl.InfoFileName | crawl.py:57-70 | the info file is the file's stem followed by `_info.json` |
| Crawl.Record | crawl.py:60-72 | the record's basename and extension spell the file name, and `info_file` is set exactly when tasks ran |
| Crawl.Catalogue | crawl.py:54-74 | the `file_list` a crawl returns: every type in it has kept files and passes the filter, and every kept file's type is present |
| Crawl.CatalogueIsFilter | crawl.py:54-74 | each type maps to exactly its kept files in walk order, matching the reference filter `OfType` |
| Crawl.OfTypeSound | crawl.py:58-73 | every catalogued record is a walked file of its own type |
| Crawl.InfoValue | crawl.py:60-66 | the `file_info` handed to the processing is a dictionary of exactly `location`, `name`, `basename`, `ext` and `type`, in that order |
| Crawl.Failures | crawl.py:54-68 | one flag per walked file, set exactly when the file is kept and its processing raises |
| Crawl.FirstTrue | crawl.py:54-68 | the first set flag from a position on, `None` exactly when no later flag is set |
| Crawl.FindAndProcessFiles | crawl.py:45-74 | `find_and_process_files`: with tasks it raises exactly when some kept file's processing raises, and then with the exception of the first such file in walk order; otherwise it returns the catalogue, with `info_file` set exactly when tasks ran |
| Crawl.UniformProcessing | crawl.py:54-68 | when every file's processing fails alike, the crawl raises that exception exactly when some file is kept |
| Crawl.DocumentProcessing | crawl.py:67-68 | each kept file is processed by `process_document` on its own `file_info` and Tika's metadata |
| Crawl.CrawlScriptOutcome | crawl.py:67-68 | `crawl.py` with tasks raises `AttributeError` exactly when some file is kept and a model task is asked for, and otherwise returns the catalogue with every `info_file` set |
| Crawl.ProcessDocument | crawl.py:35-43 | a document is processed without error exactly when no LLM task is asked for, and then it holds the file info and Tika's metadata; otherwise `AttributeError` |
| Text.Strip | main.py:323 | the result is a slice of the input with no whitespace at either end, and only whitespace was removed |
| Text.RStrip | llmprocessor.py:383 | `rstrip()` keeps a prefix, removes only whitespace, and leaves no whitespace at the end |
| Text.StripIdempotent | main.py:323 | stripping twice is stripping once |
| Text.Squeeze | main.py:321-322 | collapsing runs leaves no doubled character, the same text with that character removed, and the first character in place |
| Text.SqueezeIsCollapse | main.py:321-322 | collapsing runs equals the reference that keeps every character except a `c` directly after a `c`, so each run keeps exactly one `c` |
| Text.SqueezeSnoc | main.py:321-322 | a character appended to the input is appended to the result, unless it continues a run of `c` |
| Text.SqueezeKeepsNoDouble | main.py:321-322 | collapsing spaces never creates doubled newlines |
| Text.SqueezeFixesNoDouble | crawl.py:27-28 | text without a doubled character is left alone by collapsing it |
| Text.TidyNormal | crawl.py:27-29 | cleaned text has no doubled newline, no doubled space and no whitespace at either end |
| Text.TidyIdempotent | crawl.py:27-29 | cleaning clean text changes nothing |
| Text.CleanTextNormal | llmer.py:235-241 | `None` gives `""`; whatever `ftfy` returns, the output has no `"\n\n"`, no `"  "` and no whitespace at its ends |
| Text.FindFrom | tasker.py:25-26 | the first occurrence at or after the start, or `None` when there is none |
| Text.LastIndexOf | get-image-description.py:35 | the last index holding the character, or `None` when it does not occur |
| Text.Title | llm-utility.py:11 | title case keeps the length and every non-letter, and changes letters only in case |
| Text.TitleShape | llm-utility.py:11 | each run of letters starts with a capital and continues in lower case |
| Text.TitleIdempotent | llm-utility.py:11 | title-casing twice is title-casing once |
| Text.Split | get-image-description.py:35 | at least one piece, and no piece holds the separator |
| Text.SplitJoin | get-image-description.py:35 | the pieces joined with the separator give the input back |
| Text.SplitAppend | get-image-description.py:35 | splitting at a separator between two texts splits each text on its own |
| Text.Basename | get-image-description.py:35 | `os.path.basename` is the longest slash-free suffix: the text after the last slash, or the whole path when it has none |
| Prompts.WrapFor | main.py:218-228 | a wrap exactly for the seven known model names |
| Prompts.Apply | main.py:229 | the prompt starts with the wrap's start, ends with its end, and is exactly as long as the three parts |
| Prompts.Unwrap | main.py:229 | a text that can be unwrapped is the wrap applied to what was recovered |
| Prompts.UnwrapApply | main.py:229 | removing a wrap's start and end recovers what it wrapped |
| Prompts.ApplyInjective | llmer.py:147 | different bodies give different prompts under the same wrap |
| Llmer.FindContextWindow | llmer.py:194-206 | a window exactly when `chunk_size + 500 <= max_context` and some ladder value lies between them; the window is nonempty, ascending, and holds exactly those ladder values |
| Llmer.WindowStartsAtBucket | llmer.py:198 | the window opens at the bucket `main.py` gives a count one below the chunk size |
| Llmer.WindowGrows | llmer.py:197-202 | a larger maximum context keeps the window open and keeps every size in it |
| Llmer.ModelWrap | llmer.py:146 | a known model gets its own wrap, and any other model gets the wizard wrap |
| Llmer.PromptTemplate | llmer.py:136-147 | removing the model's wrap recovers instruction plus content |
| Llmer.UnknownModelIsWizard | llmer.py:146 | an unknown model is prompted exactly as `wizard` is |
| Llmer.PromptTemplateInjective | llmer.py:147 | the same wrap never makes one prompt from two different instruction-plus-content texts |
| Llmer.SentenceSample | llmer.py:106 | the sample is a valid sample of `min(20, #sentences)` positions, and all sentences in order when there are at most 20 |
| Llmer.SelectChunks | llmer.py:121-135 | all chunks for a negative request or one past the count; the first chunk alone for 1; otherwise the first chunk followed by a sample of the others |
| Llmer.Chunkify | llmer.py:99-135 | `num_chunks == 0` gives the content unsplit; no sentences divides by zero; a zero token count leaves `sentences_per_chunk` unbound; `None` cannot be compared; otherwise the selection policy is applied to the chunks of the sentences at the sampled `spc`, which cut the sentences in order into runs of `spc` (`Llmer.ChunkifyPartition`) |
| Llmer.ChunkifyPartition | llmer.py:118-135 | for a nonzero request, the chunks chosen from cut the sentences in order into `ceil(n / spc)` runs of `spc` sentences; the result is the first of them followed by others, `min(num_chunks, #chunks)` for a positive request, and all of them in order for a negative request or one past the count |
| Llmer.SelectPartition | llmer.py:121-135 | the same choice, for the selection policy applied to the chunks of any nonempty sentence list |
| Llmer.ChunkifyShape | llmer.py:118-135 | the result has `min(n, #chunks)` chunks for positive `n` and all of them for negative `n`; the first chunk leads and every element is a chunk |
| Llmer.ChunkifyFullRequest | llmer.py:124-129 | asking for exactly the chunk count (at least two) gives the first chunk followed by a permutation (same multiset) of the rest |
| Llmer.SelectFull | llmer.py:124-129 | selecting as many chunks as exist keeps the first chunk first and the rest as a permutation (same multiset) after it |
| Llmer.ChunkifyCoversAll | llmer.py:118-123 | a request past the sentence count sends every sentence, in order |
| Llmer.CeilDivAtMost | llmer.py:118-119 | the number of groups never exceeds the number of sentences |
| Llmer.Instruction | llmer.py:76 | the instruction can be concatenated exactly when the task holds a string under `instruction`; otherwise `TypeError` |
| Llmer.Fit | llmer.py:80-83 | the prompt sent is a prefix of the full prompt: whole when its count is within the maximum context, otherwise cut to `max_context` characters |
| Llmer.PayloadLength | llmer.py:86-91 | without a clashing parameter the payload carries the prompt and asks for as many tokens as the prompt holds |
| Llmer.ProcessTextLastChunk | llmer.py:59-97 | a chunking exception is the call's; otherwise only the payload of the last chunk is sent and its reply is the result |
| Llmer.ProcessTextErrors | llmer.py:59-97 | the call can only fail with `ZeroDivisionError`, `UnboundLocalError` or `TypeError` |
| Llmer.ProcessWhole | llmer.py:64-65 | `num_chunks == 0` sends the whole cleaned content as the one prompt |
| Chunking.Pick | main.py:90 | picking keeps the chosen positions' elements, in the order chosen |
| Chunking.SampleExists | main.py:90 | `random.sample` can always answer when `k <= n` |
| Chunking.TruncDiv | main.py:98 | `int(a / b)` for a positive divisor: the quotient rounded toward zero, bracketed by multiples of `b` on each side of zero |
| Chunking.FullSampleCovers | llmprocessor.py:335 | a sample of all `n` positions out of `n` uses every position |
| Chunking.PickPermutes | main.py:90 | picking with a sample of all `n` positions out of `n` keeps every element with its multiplicity |
| Chunking.RemovePosition | main.py:90 | a full sample with its largest position removed is a full sample of the rest |
| Chunking.PickRemoved | main.py:90 | picking with the last position removed, then reinserting the last element where it was drawn, gives the original pick |
| Chunking.InsertMultiset | main.py:90 | inserting an element anywhere adds it once to the multiset |
| Chunking.GroupsShape | main.py:101-103 | the groups spell the sentences again, each holds between one and `spc` sentences, and all but the last exactly `spc` |
| Chunking.GroupCount | utils.py:32-34 | the number of groups is `ceil(n / spc)` |
| Chunking.DivBetween | utils.py:29 | an integer quotient is fixed by the multiples that bracket it |
| Chunking.ChunkTexts | utils.py:31-34 | there are `ceil(n / spc)` chunk texts; they spell the sentences again with single spaces, and the first chunk is the first `spc` sentences |
| Chunking.ChunkTextsPartition | utils.py:31-34 | the chunk texts cut the sentences in order into runs of `spc`: every run but the last holds exactly `spc` sentences, the last one to `spc`, and each chunk is its run joined with single spaces |
| Chunking.PartitionUnique | utils.py:31-34 | a sequence can be cut in order into runs of `k` (all but the last exactly `k`, none empty) in only one way |
| Chunking.ChunkedByUnique | utils.py:31-34 | so two chunk lists that both cut the same sentences into runs of `k` are equal: the partition property pins the chunks down |
| Chunking.JoinGroups | utils.py:34 | joining nonempty groups with spaces and then the chunks with spaces gives the sentences joined with spaces |
| Chunking.LeadPlusSample | llmprocessor.py:333-336 | the selection is the first chunk followed by the sampled later chunks |
| Chunking.LeadPlusFullSample | llmprocessor.py:333-336 | a full sample makes the selection the first chunk followed by a permutation (same multiset) of the others |
| Chunking.SentencesPerChunk | main.py:98 | at least one sentence per chunk, and the most whose estimated tokens stay within the chunk size |
| Chunking.SampledChunksPartition | main.py:100-104 | whatever `chunkify` returns cuts the sentences in order into runs of the `spc` the sampled count fixes, each chunk its run joined with single spaces |
| Chunking.SampledChunks | main.py:90-104 | a failed count raises `TypeError`; an empty sample or a zero count divides by zero; it returns exactly when the count is a positive number over a nonempty sample, and then there are `ceil(n / spc)` chunks that spell the sentences in order, the first holding the first `spc` sentences |
| LlmProcessor.JsonCandidate | llmprocessor.py:43-51 | the fenced block when there is one, otherwise the brace span |
| LlmProcessor.CleanJson | llmprocessor.py:39-60 | `None` gives `""`, and a non-string raises `TypeError`; the parse of the candidate with newlines turned to spaces; `ftfy` of the whole input when there is no candidate or the parse fails |
| LlmProcessor.CleanJsonPrefersFence | llmprocessor.py:46-47 | a fenced block wins over braces around it |
| LlmProcessor.CleanJsonParsesBraces | llmprocessor.py:49-58 | without a fence the parser sees the span from the first `{` to the last `}` |
| LlmProcessor.CleanJsonPlainText | llmprocessor.py:52-53 | text with neither fence nor `{` comes back through `ftfy` whole |
| LlmProcessor.AnyListed | llmprocessor.py:148 | the loop answers whether some named category lists the extension |
| LlmProcessor.ShouldIncludeFile | llmprocessor.py:145-148 | included exactly when the categories are missing or empty or hold `all`, or some named category lists the extension |
| LlmProcessor.IncludedHasCategory | llmprocessor.py:126-127 | a file let in by a named category is never filed under `other` |
| LlmProcessor.UnknownCategoryExcludes | llmprocessor.py:148 | an unknown category name lets nothing in |
| LlmProcessor.LStripChar | llmprocessor.py:125 | `lstrip(c)` drops only leading `c` and leaves a suffix that does not start with `c` |
| LlmProcessor.CrawlExtensionSpec | llmprocessor.py:125 | the extension the crawler classifies has no dot: empty without an extension, otherwise the lower-cased extension after its dot |
| LlmProcessor.CrawlExtensionOfUpperPdf | llmprocessor.py:125 | `report.PDF` is classified as `pdf` |
| LlmProcessor.GetTemplate | llmprocessor.py:343-385 | the template fields in their fixed order around `<text>content</text>` and the instruction, missing fields as `""`, right-stripped only for `specialInstructions == ".rstrip()"` |
| LlmProcessor.GetTemplateEmpty | llmprocessor.py:343-385 | an empty template gives exactly `"<text>" + content + "</text>" + instruction` |
| LlmProcessor.GetTemplateInjective | llmprocessor.py:350 | without `rstrip` the prompt carries the content whole |
| LlmProcessor.ChatTemplate | llmprocessor.py:260-265 | no config gives the Alpaca-style default, a missing file keeps `{}`, an existing file raises (the undefined name `model`, or `.get` on a non-object) |
| LlmProcessor.AverageTokens | llmprocessor.py:316 | at least one, and the truncated average tokens per sentence |
| LlmProcessor.PerChunk | llmprocessor.py:319 | at least one, and the most sentences of that average that fit in the chunk size |
| LlmProcessor.SelectChunks | llmprocessor.py:328-341 | all chunks for `num_chunks <= 0` or at least the count; the first chunk for 1; otherwise exactly `num_chunks` chunks, the first followed by a sample of the others |
| LlmProcessor.SelectKeepsLead | llmprocessor.py:328-341 | the first chunk always leads, and the count kept is `num_chunks` capped by the chunk count, or all of them |
| LlmProcessor.Chunkify | llmprocessor.py:309-341 | no sentences divides by zero; a `None` request cannot be compared; otherwise the selection policy over the chunks of `max(1, chunk_size // avg)` sentences, which cut the sentences in order into runs of that many (`LlmProcessor.ChunkifyPartition`), with the first chunk leading |
| LlmProcessor.ChunkifyPartition | llmprocessor.py:316-341 | the chunks chosen from cut the sentences in order into `ceil(n / spc)` runs of `spc = max(1, chunk_size // avg)` sentences; the result is the first of them followed by others, `min(num_chunks, #chunks)` for a positive request, and all of them in order when `num_chunks` is at most zero or at least the count |
| LlmProcessor.SelectPartition | llmprocessor.py:328-341 | the same choice, for the selection policy applied to the chunks of any nonempty sentence list |
| LlmProcessor.ChunkifyAll | llmprocessor.py:324-330 | with `num_chunks <= 0` every sentence is sent, in order |
| LlmProcessor.InstructionText | llmprocessor.py:284 | a string instruction is used as it is; a missing or `null` one is written as `None` |
| LlmProcessor.ChunkPrompt | llmprocessor.py:284-291 | the prompt is a prefix of the template: whole when its count is within the context, otherwise cut to `max_context` characters; a failed count raises `TypeError` |
| LlmProcessor.PayloadBudget | llmprocessor.py:293-298 | the payload carries the prompt, `max_length = chunk_size` and the context length, and a parameter of the same name replaces either |
| LlmProcessor.ChunkReply | llmprocessor.py:284-300 | the reply to the chunk's payload with the correlation key; `TypeError` when the prompt or the parameters cannot be built |
| LlmProcessor.Successes | llmprocessor.py:301-302 | the arrived replies are no more than the replies, and none arrived exactly when every call failed |
| LlmProcessor.SuccessesAppend | llmprocessor.py:301-302 | keeping the arrived replies is an order-preserving filter that splits over concatenation |
| LlmProcessor.GatherSpec | llmprocessor.py:283-303 | the loop raises exactly when some reply raised, with the first such exception; otherwise it keeps the arrived replies in chunk order |
| LlmProcessor.PlanChunks | llmprocessor.py:273-280 | content that fits is one chunk, except that `num_chunks == 0` gives `None`; otherwise the chunks `chunkify` selects, or its exception |
| LlmProcessor.ChunkReplies | llmprocessor.py:283 | one reply per chunk, in chunk order |
| LlmProcessor.ProcessWithErrors | llmprocessor.py:270-307 | the call can only fail with `TypeError` or `ZeroDivisionError` |
| LlmProcessor.ProcessWithUnplanned | llmprocessor.py:273-280 | when planning raises or yields nothing, the call does the same |
| LlmProcessor.ProcessWithUnmeasured | llmprocessor.py:271-273 | without a token count or a context length the comparison raises `TypeError` |
| LlmProcessor.RepliesRaiseTypeError | llmprocessor.py:284-298 | a failing chunk request fails only with `TypeError`, so the loop does too |
| LlmProcessor.ProcessWithPlanned | llmprocessor.py:282-307 | once planned, the answer is the arrived replies joined with spaces, or `None` when none arrived |
| LlmProcessor.ProcessWithReturned | llmprocessor.py:273-307 | a finished call either planned nothing or joined the replies that arrived |
| LlmProcessor.ProcessText | llmprocessor.py:243-268 | an existing config file raises; a missing task gives `None`; otherwise the chunk loop under the settled template |
| LlmProcessor.ProcessFits | llmprocessor.py:273-278 | content that fits is sent whole, once, and that reply is the answer |
| LlmProcessor.AnswerOne | llmprocessor.py:304-307 | a single reply is the answer: its failure, its text, or `None` |
| LlmProcessor.ProcessFitsZero | llmprocessor.py:273-276 | content that fits with `num_chunks == 0` sends nothing and gives `None` |
| LlmProcessor.TaskEntry | llmprocessor.py:174-192 | an unknown task is `"Invalid task"`; a list or string config that holds the task fails `.get` and gives the `AttributeError` entry, as does a non-dictionary task config; a failing run gives its error entry; a reply is stored as `clean_json` of it and `None` generation as `""`; an empty config re-cleans the existing entry and fails with `KeyError` when there is none |
| LlmProcessor.TasksFrom | llmprocessor.py:173-192 | the loop never removes or reorders an entry |
| LlmProcessor.ProcessTasks | llmprocessor.py:171-193 | the result starts with `file_info` |
| LlmProcessor.TasksFromKeys | llmprocessor.py:173-192 | the loop adds exactly one key per requested task |
| LlmProcessor.ProcessTasksKeys | llmprocessor.py:171-193 | the result's keys are `file_info` and the requested tasks |
| LlmProcessor.TasksFromInvalid | llmprocessor.py:175-178 | a task the configuration does not name is marked `"Invalid task"` |
| LlmProcessor.ProcessTasksInvalid | llmprocessor.py:175-178 | a requested unknown task reads `"Invalid task"` in the result |
| Sanitize.FenceGroupTrimmed | tasker.py:25-29 | the fenced group has no whitespace at its ends, so `strip` leaves it alone |
| Sanitize.FenceFinds | tasker.py:25-29 | a fenced layout yields its body |
| Sanitize.BraceSpan | tasker.py:32-34 | the span runs from the first `{` to the last `}` when that `}` comes later, and `None` otherwise |
| Sanitize.BraceSpanAt | tasker.py:32-34 | the span is fixed by the first `{` and the last `}` |
| Sanitize.SubCommaClose | tasker.py:39-40 | the rewrite never lengthens the text |
| Sanitize.SubKeepsEssential | tasker.py:39-40 | the rewrite drops only commas and whitespace; everything else survives in order |
| Sanitize.SubWithoutComma | tasker.py:39-40 | text without a comma passes unchanged |
| Sanitize.SubExample | tasker.py:39 | `{"a":1, }` becomes `{"a":1}` |
| Sanitize.SubNotIdempotent | tasker.py:39 | one pass can leave a comma before the brace (`",,}"`) |
| Tasker.Candidate | tasker.py:25-40 | the fenced block or else the brace span, each with trailing commas removed before `}` and then `]` |
| Tasker.CleanJson | tasker.py:16-42 | `None` gives `""`; no candidate gives the input with newlines turned to spaces; otherwise the parse, and a parse failure escapes as `JSONDecodeError` |
| Tasker.FallbackHasNoNewline | tasker.py:21-36 | the fallback text keeps its length and has no newline |
| Tasker.CandidateKeepsEssential | tasker.py:38-40 | only commas and whitespace are dropped before parsing |
| Tasker.CleanJsonPrefersFence | tasker.py:25-29 | a fenced block wins over braces elsewhere |
| Tasker.CleanJsonTrailingComma | tasker.py:39-40 | `{"a":1, }` reaches the parser as `{"a":1}` |
| Tasker.AnyMatchExists | tasker.py:118-124 | the loop answers whether some entry matches, as a category or as a literal extension |
| Tasker.ShouldIncludeFile | tasker.py:115-124 | `all` includes; a category matches its extensions and any other entry matches itself; a missing list raises `TypeError` |
| Tasker.ShouldIncludeExamples | tasker.py:115-124 | `pdf` under `document`, `md` by itself, and `exe` under neither |
| Tasker.TaskEntry | tasker.py:162-178 | an unknown task is `"Invalid task"`; a list or string config that holds the task fails `.get` and gives the `AttributeError` entry; an empty config writes nothing; an exception, a parse failure included, becomes an error entry |
| Tasker.Entries | tasker.py:161-178 | one entry per task, in task order, each the one that task writes |
| Tasker.RecordDistinct | tasker.py:161-178 | the loop keeps the keys distinct |
| Tasker.RecordKeys | tasker.py:161-178 | the loop adds exactly the keys of the tasks that write |
| Tasker.ProcessTasks | tasker.py:159-181 | a result has more than one key, all distinct, and is what the loop collected |
| Tasker.CollectedKeys | tasker.py:160-178 | the keys are `file_info` and the tasks that wrote |
| Tasker.ProcessTasksNone | tasker.py:181 | `None` exactly when no task other than one named `file_info` wrote |
| Tasker.RecordInvalid | tasker.py:163-166 | an unknown task is marked `"Invalid task"` |
| Tasker.ProcessTasksInvalid | tasker.py:163-166 | a requested unknown task reads `"Invalid task"` and the result is not `None` |
| Utils.GenerateGenkey | utils.py:67-68 | `KCP` followed by exactly four decimal digits, seven characters in all |
| Utils.GenkeyDigits | utils.py:68 | the digits are read back exactly from `KCP` followed by four decimal digits, and they are four values below ten |
| Utils.GenkeyRoundTrip | utils.py:67-68 | the digits read back from a key are the draws that made it |
| Utils.GenkeyOfDigits | utils.py:67-68 | every string of the key's shape is some possible key |
| Utils.Chunkify | utils.py:20-36 | raises, always `ZeroDivisionError`, exactly when the sample is empty or its token count is zero; otherwise a nonempty chunk list that spells the sentences in order, the first chunk holding the first `spc` sentences |
| Utils.SpcOf | utils.py:29 | at least one sentence per chunk |
| Utils.ChunkifyPartition | utils.py:31-34 | `ceil(n / spc)` chunks, each the join of a group of one to `spc` sentences, all groups but the last exactly `spc`, and the groups partition the sentences in order |
| Utils.ChunkifySampleSize | utils.py:24 | the sample has `min(sample_size, n)` sentences and is all of them for a short text |
| Utils.GeneratePrompt | utils.py:154-176 | the prompt is the stub `##Start:` |
| Utils.GeneratePromptConstant | utils.py:173-176 | the prompt carries nothing of the job, the template or the text |
| Utils.BudgetsLeaveRoom | utils.py:120-152 | every job's `max_length` is positive and at most a quarter of its `max_context_length` |
| Utils.JobPayload | utils.py:120-152 | the payload keys in the order written, five of them, six for a summary |
| Utils.JobPayloadKeys | utils.py:131-141 | no key repeats, and only a summary asks for the grammar |
| Utils.JobPayloadBudgets | utils.py:120-152 | translate asks 2048 of 8192, summarize 1024 of 8192, edit 4096 of 16384, all with the stub prompt |
| Utils.JobPayloadIgnoresText | utils.py:121-152 | two documents give the same payload |
| Normalize.NormalizeKey | llm-utility.py:9-12 | string keys stay strings of the same length, and other keys are kept |
| Normalize.NormalizeValue | llm-utility.py:14-19 | dictionaries stay dictionaries, lists keep their length, and anything else is kept |
| Normalize.Renamed | llm-utility.py:21 | the comprehension makes one pair per entry |
| Normalize.Normalized | llm-utility.py:18 | a normalised list keeps its length |
| Normalize.RenamedHasKey | llm-utility.py:21 | the pairs carry exactly the title-cased keys of the input |
| Normalize.NormalizeSingle | llm-utility.py:21 | a one-entry dictionary normalises to its title-cased key and normalised value |
| Normalize.NormalizeKeysHasKey | llm-utility.py:21 | the result's keys are exactly the title-cased keys of the input |
| Normalize.NormalizeKeysDistinct | llm-utility.py:21 | the result holds every key at most once |
| Normalize.NormalizeKeysLaterWins | llm-utility.py:21 | when keys title-case alike, the last of them gives the value |
| Normalize.NormalizeKeyIdempotent | llm-utility.py:9-12 | title-casing a key twice is title-casing it once |
| Normalize.NormalizeDictIdempotent | llm-utility.py:7-21 | a dictionary whose normalised values are fixed by normalising is fixed too |
| Normalize.NormalizeListIdempotent | llm-utility.py:18 | a list whose items are fixed by normalising twice is fixed too |
| Normalize.NormalizeIdempotent | llm-utility.py:7-21 | normalising twice equals normalising once, at every depth |
| LlmUtility.LlmMetadata | llm-utility.py:34-40 | a non-dictionary answer raises `AttributeError`, and a missing `Metadata` record reads as `{}` |
| LlmUtility.MetadataRecord | llm-utility.py:40 | the record is the `Metadata` dictionary when present, `{}` when absent, and a non-dictionary raises on `.get` |
| LlmUtility.Field | llm-utility.py:45-59 | the model's value when it gave one, otherwise the default |
| LlmUtility.Kilobytes | llm-utility.py:55 | whole kilobytes, rounded down |
| LlmUtility.Combined | llm-utility.py:43-60 | the record has the sixteen metadata keys in order, each with its field's value |
| LlmUtility.CombinedFields | llm-utility.py:44-58 | the file name, caption and category come from the file and not from the model, and the size is in whole kilobytes |
| LlmUtility.CombinedDefaults | llm-utility.py:45-48 | title and creator fall back to `Unknown`, and author to `Not Specified` |
| LlmUtility.CombinedMoreDefaults | llm-utility.py:49-59 | subject and topic fall back to `Unknown`, and the proposed file name to `unknown` |
| LlmUtility.ExtractMetadata | llm-utility.py:23-62 | the record has the sixteen keys in order, and fails exactly when reading the model's record does |
| LlmUtility.ExtractMetadataFields | llm-utility.py:44-58 | the record names the file by its basename, carries the given caption and category, and gives the size in whole kilobytes |
| LlmUtility.MetadataKeysDistinct | llm-utility.py:43-60 | no field is written twice |
| LlmUtility.ExtractMetadataDefaults | llm-utility.py:45-59 | Title, Creator, Subject and Topic default to `Unknown`, Author to `Not Specified`, ProposedFilename to `unknown`; a field the model gave is copied |
| LlmUtility.ExtractMetadataAnyCase | llm-utility.py:34-45 | a title under any casing of `metadata` and `title` reaches the record |
| LlmUtility.LlmMetadataAnyCase | llm-utility.py:34-40 | the model's record is found under any casing of `metadata`, and its keys are title-cased |
| LlmUtility.NameKey | llm-utility.py:81 | files are recorded under a slash-free basename |
| LlmUtility.Attempt | llm-utility.py:87-105 | a record is always a dictionary; an image whose caption is missing or falsy records nothing, and so does one whose caption is not a string (`clean_content` raises inside the `try`); a string caption records exactly when `extract_metadata` returns, and then records its dictionary; any other file records exactly when `extract_metadata` returns with the `Document` category, and then records that dictionary |
| LlmUtility.Visits | llm-utility.py:78-81 | one basename and one record attempt per file, in crawl order |
| LlmUtility.Visit | llm-utility.py:83-107 | a known basename is skipped; otherwise the file's record, if any, is stored under it; earlier entries keep their values |
| LlmUtility.VisitAll | llm-utility.py:78-107 | the loop keeps every earlier entry and adds exactly the names some visit recorded |
| LlmUtility.VisitAllFirstWins | llm-utility.py:83 | of the visits under one name, the first with a record is kept |
| LlmUtility.ProcessFiles | llm-utility.py:65-107 | earlier entries are kept and a basename is added exactly when some file of that name yields a record |
| LlmUtility.FirstRecordWins | llm-utility.py:81-99 | of files sharing a basename, the first that yields a record is recorded and every later namesake is skipped |
| Json.Put | get-image-description.py:24 | `d[k] = v`: the key reads `v`, other keys keep their entries and positions, and a new key is appended |
| Json.Get | llmprocessor.py:180 | `d.get(k)` returns a value exactly when the key is present, and that value is stored under the key |
| Json.GetPutOther | get-image-description.py:24 | storing under one key leaves every other key unchanged |
| Json.Parameters | llmprocessor.py:297 | a missing entry adds nothing, a dictionary adds its entries, and anything else raises `TypeError` |
| Json.OverlayGet | get-image-description.py:55 | after `update` a key the new entries carry reads their value, and any other key reads the old one |
| Json.OverlayHasKey | get-image-description.py:55 | after `update` the dictionary holds exactly the keys of both sides |
| Json.OverlayDistinct | get-image-description.py:55 | `update` never duplicates a key |
| Json.OverlayEntries | get-image-description.py:55 | every entry after `update` comes from one of the two sides |
| Json.OverlayLast | llmprocessor.py:297 | the last parameter under a key is the one that stays |
| Json.ConfigHas | llmprocessor.py:175 | key membership for a dictionary config, element membership for a list, substring for a string, and `TypeError` for a config that cannot be searched |
| Json.NumChunksOf | llmprocessor.py:181 | a numeric `num_chunks` is read as that number, and a missing one as `None` |
| Json.ErrorEntry | llmprocessor.py:192 | an error entry starts with `Error: ` |
| ImageDescription.InitialSlashes | get-image-description.py:35 | `normpath` keeps at most two leading slashes, and none exactly for a relative path |
| ImageDescription.GetOutputFilenameShape | get-image-description.py:34-36 | the name is the text after the last slash of the normalised path (all of it when there is none), followed by `_results.json` |
| ImageDescription.NormCompsSkip | get-image-description.py:35 | empty and `.` components change nothing, wherever they stand |
| ImageDescription.NormCompsCancel | get-image-description.py:35 | a plain component followed by `..` cancels out |
| ImageDescription.NormPathTrailingSlash | get-image-description.py:35 | a trailing slash does not change the normalised path |
| ImageDescription.NormPathDot | get-image-description.py:35 | a `.` component does not change the normalised path |
| ImageDescription.NormPathParent | get-image-description.py:35 | `x/..` does not change the normalised path |
| ImageDescription.GetOutputFilenameTrailingSlash | get-image-description.py:34-36 | `a/b/` gives the same results file as `a/b` |
| ImageDescription.GetOutputFilenameDots | get-image-description.py:34-36 | `a/./b` and `a/x/../b` give the same results file as `a/b` |
| ImageDescription.GetOutputFilenamePlain | get-image-description.py:34-36 | a plain folder name gives `<name>_results.json` |
| ImageDescription.AppendRaises | get-image-description.py:47-61 | appending fails exactly when the file holds JSON that is not an object, with `AttributeError` |
| ImageDescription.AppendThenLoad | get-image-description.py:47-61 | after appending, a load reads every key of the file and of the result; the result's values win and other keys keep theirs; a missing or unparsable file starts from `{}` |
| ImageDescription.AppendedEntries | get-image-description.py:55 | after `update`, each key reads the new value when it has one and the old value otherwise |
| ImageDescription.OverlayOfEmpty | get-image-description.py:59-61 | writing the new entries to a fresh file reads back like updating `{}` |
| ImageDescription.LoadPreviousResultsEmpty | get-image-description.py:38-45 | a missing or unparsable file loads as `{}`, and a readable one as its JSON value |
| ImageDescription.FileInfoKeys | llmprocessor.py:156-164 | the crawler's record has the path under `path` and the metadata under `metadata`, and no `file_metadata` entry |
| ImageDescription.AsWrittenRaisesOnCaption | get-image-description.py:17-23 | as written, a fresh image that gets a caption raises `KeyError` |
| ImageDescription.AsWrittenRecordsNothing | get-image-description.py:14-30 | as written, a run that finishes has recorded nothing |
| ImageDescription.AsWrittenFailsOnFirstImage | get-image-description.py:6-25 | as written, one fresh captioned image makes the script raise |
| ImageDescription.StartInSync | get-image-description.py:9-10 | the loaded results and the file agree at the start |
| ImageDescription.SkipRecorded | get-image-description.py:17 | a path already among the results is skipped without asking for a caption |
| ImageDescription.VisitInSync | get-image-description.py:16-30 | one turn keeps memory and file in sync, adds exactly a freshly captioned path with its caption and metadata, and keeps every earlier value |
| ImageDescription.VisitFresh | get-image-description.py:17-25 | a fresh captioned path is stored in memory and in the file, and the two still agree |
| ImageDescription.SyncedAppend | get-image-description.py:24-25 | while in sync, appending one entry to the file writes what storing it in memory gives |
| ImageDescription.VisitAllInSync | get-image-description.py:14-30 | the loop never raises from a synced start, stays in sync, ends with the earlier results plus the captioned paths, and never overwrites an earlier result |
| ImageDescription.GetImageMetadataResumes | get-image-description.py:6-30 | from a usable results file, the run never raises, and the file it leaves reads back as the earlier results plus one entry per newly captioned image |

## Left out

- Status polling and generation dispatch are left out: threads, a shared flag, HTTP and console clearing (main.py:106-139, llmprocessor.py:387-418, llmer.py:149-192, utils.py:70-118).
- The remote calls, the sentencizer, `ftfy`, `json.loads`, `repair_json`, Tika and the language detector are opaque function inputs. Their own behaviour is not modelled.
- `json.dump` followed by `json.load` is taken to give the same value back. A results file is modelled by the value it holds.
- The smart-quote substitution (llmprocessor.py:56, tasker.py:22) replaces `"` with `"`, so it is the identity and is not modelled.
- `random.sample` and `random.randint` are modelled as constrained choice, not as a pseudo-random generator.
- Float division in the token averages (main.py:96-98, llmer.py:110-113, utils.py:27-29) is exact division truncated toward zero; float rounding is not modelled.
- File reading and writing, directory walking, `os_sorted`, argparse `main`s, `print` and model-name coercion are left out. The crawlers' walk order is the order of the `listing` input. The directory and name parts of a crawled file are inputs.
- `document-translation-script.py`, `extract-metadata.py`, `image-interrogator.py` and `bench.py` are not part of this model: they wrap the modelled classes with I/O.
- `LLMProcessor.interrogate_image` is an input: the JSON value the reply holds under `caption` (or `None`) per path.
- I/O errors in `append_result` (get-image-description.py:62-63) are not modelled: the write always succeeds.
- The syntax error at crawl.py:69 (`is os.path`) is not modelled: Crawl.FindAndProcessFiles models the loop as if that line were absent.
- Crawl.FindAndProcessFiles: the per-file processing is its `process` input. For `crawl.py` it is `process_document` (Crawl.CrawlScriptOutcome); for `main.py` (main.py:347) it is `DocumentProcessor.process_text`, which MainScript.ProcessText models but which is not composed with the crawl here.
- Crawl.ProcessDocument: the task processing is modelled only as the `AttributeError` that `NLPProcessor.process_text` (absent from utils.py) raises.
- Llmer.ProcessTextLastChunk: `find_largest_context`'s result (llmer.py:85) never reaches the payload, so it is not modelled. The payload's `max_length` is the token count of the prompt actually sent, which is the recount at llmer.py:83 when the prompt was cut.
- LlmProcessor.ChunkPrompt: the recount after truncation (llmprocessor.py:291) does not reach the payload and is not modelled.
- MainScript.ProcessText: only the result's head and key set are stated. The values of the sampled entries are stated separately in MainScript.RunTasksSample.
- LlmProcessor.TasksFrom: the per-entry values are stated in LlmProcessor.TaskEntry and LlmProcessor.TasksFromInvalid, not in the loop's own contract.
- Json.NumChunksOf: JSON numbers are modelled as integers, so a float `num_chunks` is not modelled. In the source, `0.5` passes `> 0` but none of the later tests, so it reaches the `[0, 'error']` branch, which `llmprocessor.py` returns (llmprocessor.py:339-341) and after which `llmer.py` falls off the end and returns `None` (llmer.py:132-135); `2.0`, with more chunks than that, makes `random.sample` raise `TypeError` on the float count (llmprocessor.py:335, llmer.py:128).
- Json.ErrorEntry: the entry holds the exception's kind (`Error: KeyError`), where Python writes the exception's message `str(e)` (llmprocessor.py:190, tasker.py:177); messages are not modelled.
- Text.Lower and Text.Title work on ASCII letters only. Unicode case mapping is not modelled.

## Findings

| source | as written | input that shows it | evidently intended | confidence | as-written member | corrected member |
|---|---|---|---|---|---|---|
| get-image-description.py:22 | reads the crawler's record under `file_metadata`, but `FileCrawler.get_file_info` (llmprocessor.py:156-164) stores it under `metadata` | any fresh image that gets a caption, e.g. a folder with one image and no results file | read `file_info['metadata']`, so each captioned image is recorded and appended | high, not executed | ImageDescription.AsWrittenFailsOnFirstImage | ImageDescription.GetImageMetadataResumes |
