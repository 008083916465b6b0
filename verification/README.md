# Depression-post filtering pipeline: a Dafny model of the record filters

This project models the record-filtering core of a three-stage batch pipeline.
The pipeline reads newline-delimited JSON dumps of social-media posts:

- **Ingest** (`skinny_extraction`): each raw post becomes a slim record
  `{"text", "date", "year"}`. The text is the stripped join of title and body.
  A record is written only when that text is non-empty and `created_utc` is
  truthy.
- **Keyword stage** (`filter_jsonl`): keeps the records whose stripped `text`
  matches a keyword pattern. Blank lines and undecodable lines are skipped
  without being counted.
- **Classifier stage** (`slm_filter_depression_posts`):
  - Every line becomes a dataset item: the head/tail-windowed text, plus the raw line.
  - Items are classified in fixed-size batches.
  - An item whose predicted class is in the keep set is written as its original
    record plus a `depression_label` field. The keep set holds the labels that
    do not contain "not", ignoring case.

Each stage is a pure function from the lines of its input file to the records
it writes and its counters. The loops that compute them are methods, proved
equal to those functions. The opaque collaborators are function-valued
parameters:

| parameter | stands for |
|---|---|
| `parse: string -> Option<Json>` | `json.loads`; `None` is a `JSONDecodeError` |
| `classify: string -> nat` | tokenizer, model forward pass and argmax |
| `matches: string -> bool` | `DEPRESSION_REGEX.search` |
| `toDate: Json -> Option<DateParts>` | `datetime.fromtimestamp` plus `strftime`; `None` is any exception |
| `repr: Json -> string` | `str()` of a non-string value inside an f-string |

Modules, one per concern:

- `Wrappers`: `Option`.
- `Text`: `isspace`, `strip`, ASCII `lower`, substring test, `replace`.
- `Paths`: posix `basename`, `splitext`, `join`.
- `Json`: JSON values. A dict is an insertion-ordered field list, so `get` and
  `d[k] = v` keep Python's key order.
- `Streams`: stable selection, counting, batching.
- `Window`: `_text_for_model`.
- `ClassifierStage`, `KeywordStage`, `IngestStage`: the three source files.

## Behaviour worth knowing

- **Classifier stage, malformed lines.** A malformed line is not skipped.
  `__getitem__` turns any line that fails to decode, or whose `text` cannot be
  stripped, into the placeholder item `("", "{}")`. The placeholder is
  classified and counted in `total`. When its class is kept, the stage writes
  `{"depression_label": ...}` (`ClassifierStage.UnreadableLineStillLabelled`).
- **Keyword stage, errors other than decode errors.** Only a
  `JSONDecodeError` is recovered per line. Any other error in the loop body
  escapes to the outer `except Exception`, which ends the pass. The model
  covers two such errors: a decoded value that is not a dict, and a `text` that
  is not a string. Lines after that point are never read
  (`KeywordStage.AbortIsFinal`, `KeywordStage.CompletesIffNoError`).
- **Windowing, idempotence.** 1000 + 1000 = 2000, so a window can be 2001
  characters long, one more than `MAX_CHARS`. Windowing is idempotent anyway,
  and `Window.WindowIdempotent` proves it for that case too.
- **Windowing, exact length.** A long text yields a window of exactly 2001
  characters only when neither slice has whitespace at its ends
  (`Window.WindowFullLength`).

## Model

| member | source | states |
|---|---|---|
| `Window.TextForModel` | src/pipelines/slm_based_cleaning.py:15-19 | a text of at most 2000 characters is returned unchanged; a longer one becomes h + " " + t where h and t are the strips (in the sense of `StripOf`) of its first and last 1000 characters; the result is never longer than the input nor than 2001 |
| `Window.WindowFullLength` | src/pipelines/slm_based_cleaning.py:19 | for a long text the window has exactly 2001 characters if and only if both slices are already stripped |
| `Window.WindowIdempotent` | src/pipelines/slm_based_cleaning.py:15-19 | windowing the window gives the window back, including a 2001-character window |
| `Window.WindowKeepsStripped` | src/pipelines/slm_based_cleaning.py:32-33 | windowing a stripped text gives a stripped text, so item texts never start or end with whitespace |
| `Text.Strip` | src/pipelines/regex_based_cleaning.py:32-33 | the result has no whitespace at its ends, is no longer than the input, equals an already-stripped input, and is empty exactly when the input is all whitespace |
| `Text.StripCharacterised` | src/pipelines/regex_based_cleaning.py:32 | `y == Strip(x)` exactly when y is a slice of x with only whitespace cut from both ends and nothing more left to cut |
| `Text.HasSubstring` | src/pipelines/slm_based_cleaning.py:53 | Python's `pat in s`: true exactly when the pattern occurs at some position |
| `Text.ReplaceAll` | src/pipelines/slm_based_cleaning.py:38 | `str.replace` introduces no characters beyond the input's and the replacement's, and leaves a string without the pattern unchanged |
| `Paths.Basename` | src/pipelines/regex_based_cleaning.py:19 | the result is the suffix of the path after its last '/', and contains no '/' |
| `Paths.Splitext` | src/pipelines/regex_based_cleaning.py:20 | root + ext is the path; ext is non-empty exactly when the last component has a dot that does not only follow leading dots; ext starts with that dot and has no further dot or '/' |
| `Paths.Join` | src/steps/ingest.py:25 | `os.path.join` of two parts: an absolute second part wins; otherwise one '/' is inserted unless the first part is empty or already ends with '/' |
| `Paths.StemWith` | src/pipelines/regex_based_cleaning.py:19-21 | the name ends with the suffix; the part before it, followed by the basename's extension as `Paths.Splitext` finds it, is the basename, so it is `splitext(basename)[0]`; the name has no '/' when the suffix has none |
| `Paths.StemWithOfJsonl` | src/steps/ingest.py:17-21 | for "dir/name.jsonl" the stem is "name" |
| `Json.Get` | src/steps/ingest.py:40 | `dict.get` finds a value exactly when the key is present, a missing key gives None, and the value found is the one in the first field with that key |
| `Json.Truthy` | src/steps/ingest.py:41 | Python's truth test on a decoded value: false exactly for null, false, 0, 0.0, "", [] and {} |
| `Json.Put` | src/pipelines/slm_based_cleaning.py:88 | after `d[k] = v`, reading k gives v and every other key reads as before |
| `Json.PutKeyOrder` | src/pipelines/slm_based_cleaning.py:88-89 | assignment keeps the key order: an existing key keeps its place, and a new key is appended last |
| `Json.PutKeepsKeysUnique` | src/pipelines/slm_based_cleaning.py:88 | assignment never duplicates a key |
| `Json.StrField` | src/pipelines/slm_based_cleaning.py:32 | `d.get('text', '')` used as a string: a missing key gives "", a string value gives itself, and any other value is the error that `.strip()` raises |
| `Json.Format` | src/steps/ingest.py:36 | an f-string renders a string value verbatim |
| `Streams.ChunkFlattens` | src/pipelines/slm_based_cleaning.py:58 | the DataLoader's batches, concatenated, are the dataset in order |
| `Streams.ChunkSizes` | src/pipelines/slm_based_cleaning.py:58 | no batch is empty or larger than the batch size, and all but the last are full |
| `Streams.StableSelection` | src/pipelines/slm_based_cleaning.py:83-92 | the selected outputs correspond one-to-one, in increasing input position, with the inputs that produced one |
| `ClassifierStage.GetItem` | src/pipelines/slm_based_cleaning.py:29-35 | a readable line keeps its raw text as `original_data`, and any other line becomes exactly the placeholder ("", "{}"); the item text is the window (at most 2001 characters) of a strip (in the sense of `StripOf`) of the `text` field, so it is stripped and at most 2001 characters long |
| `ClassifierStage.Items` | src/pipelines/slm_based_cleaning.py:21-35 | the dataset has one item per input line, in order, and item i is the item of line i |
| `ClassifierStage.KeepIds` | src/pipelines/slm_based_cleaning.py:52-53 | the keep set is exactly the label indices whose label contains no "not" in any mix of case |
| `ClassifierStage.LoweredNotTest` | src/pipelines/slm_based_cleaning.py:53 | `"not" in label.lower()` holds exactly when "not" occurs in the label ignoring case |
| `ClassifierStage.Emit` | src/pipelines/slm_based_cleaning.py:85-92 | a record is written exactly when the prediction is kept and the stored line decodes to a dict; it carries the predicted label under `depression_label`, every other field unchanged, and the original key order with the label last if it is new |
| `ClassifierStage.Decide` | src/pipelines/slm_based_cleaning.py:83-92 | a line leads to a record only when its prediction is in the keep set, and the record is a dict labelled with that prediction's label; a readable line leads to a record exactly when its prediction is kept, and that record is the line's own dict with every key other than `depression_label` unchanged |
| `ClassifierStage.Decisions` | src/pipelines/slm_based_cleaning.py:83-92 | there is exactly one write decision per dataset item; `ClassifierStage.DecisionsAt` says which |
| `ClassifierStage.DecisionsAt` | src/pipelines/slm_based_cleaning.py:83-85 | the decision for position j is the decision for item j alone |
| `ClassifierStage.DecisionsAppend` | src/pipelines/slm_based_cleaning.py:65-83 | deciding two runs of items gives the decisions of their concatenation, so, with a per-text classifier, batching does not change the decisions |
| `ClassifierStage.Expected` | src/pipelines/slm_based_cleaning.py:83-92 | there are no more records than input lines, and every record is a dict carrying, under `depression_label`, the label of a class in the keep set |
| `ClassifierStage.WriteBatch` | src/pipelines/slm_based_cleaning.py:83-92 | one batch writes the records of its kept items, in batch order |
| `ClassifierStage.NextBatch` | src/pipelines/slm_based_cleaning.py:65-92 | the records of one more batch extend the records written so far exactly as the batch extends the items seen |
| `ClassifierStage.ProcessBatches` | src/pipelines/slm_based_cleaning.py:60-92 | for any batching that concatenates to the dataset: `total` is the number of items, `kept` the number of records, and the records are the kept decisions in item order |
| `ClassifierStage.FilterDepressionPosts` | src/pipelines/slm_based_cleaning.py:37-92 | a non-positive batch size is the DataLoader's error; otherwise `total` equals the number of input lines, the records are the expected ones in input order, and `kept` is their number, at most `total` |
| `ClassifierStage.WrittenIffKept` | src/pipelines/slm_based_cleaning.py:83-92 | when "{}" decodes to a dict, a line yields a record if and only if its prediction is in the keep set |
| `ClassifierStage.UnreadableLineStillLabelled` | src/pipelines/slm_based_cleaning.py:34-35 | an unreadable line whose empty text is classified into the keep set is written as a record with the label alone |
| `ClassifierStage.OutputsFollowInput` | src/pipelines/slm_based_cleaning.py:83-92 | outputs correspond one-to-one and in order with the lines whose decision is to write; each is the record its line leads to (`ClassifierStage.Decide`), carries the label of its line's prediction, and that prediction is kept |
| `ClassifierStage.OutputPath` | src/pipelines/slm_based_cleaning.py:38-39 | the path is "/kaggle/working/" followed by a single file name with no '/' |
| `ClassifierStage.OutputPathOfJsonl` | src/pipelines/slm_based_cleaning.py:38-39 | "dir/name.jsonl" is written to "/kaggle/working/name_filtered.jsonl" |
| `ClassifierStage.OutputPathWithoutJsonl` | src/pipelines/slm_based_cleaning.py:38-39 | a basename without ".jsonl" is kept as it is |
| `KeywordStage.ScanLine` | src/pipelines/regex_based_cleaning.py:31-45 | a line is blank exactly when it is all whitespace, and undecodable exactly when its strip does not decode; it aborts exactly when it decodes to something other than a dict with a string or missing text; otherwise it is counted, and kept, unchanged, exactly when its stripped text is non-empty and matches |
| `KeywordStage.Keeps` | src/pipelines/regex_based_cleaning.py:38-41 | a record is kept exactly when its text, stripped in the sense of `StripOf`, is non-empty and matches the pattern |
| `KeywordStage.Run` | src/pipelines/regex_based_cleaning.py:27-57 | `kept` is the number of records, at most `total`, at most the number of lines; the run completes exactly when no line aborts |
| `KeywordStage.RunExtend` | src/pipelines/regex_based_cleaning.py:31-45 | one more line after a completed prefix: skipped lines change nothing, a decoded line adds one to `total` and its record if kept, and an abort stops the run |
| `KeywordStage.RunAppend` | src/pipelines/regex_based_cleaning.py:31-45 | after a part that completes, the rest of the file adds its records and counts |
| `KeywordStage.AbortIsFinal` | src/pipelines/regex_based_cleaning.py:56-57 | once a line aborts, nothing after it changes the run |
| `KeywordStage.SkippedLineInvisible` | src/pipelines/regex_based_cleaning.py:32-45 | a blank or undecodable step anywhere in the file changes neither records nor counters |
| `KeywordStage.SkippedLineChangesNothing` | src/pipelines/regex_based_cleaning.py:32-45 | inserting a whitespace-only or undecodable line anywhere in the file changes neither the records nor either counter |
| `KeywordStage.CompletesIffNoError` | src/pipelines/regex_based_cleaning.py:36-57 | the pass reaches the end of the file exactly when every non-blank line that decodes is a dict whose text is a string or missing |
| `KeywordStage.RunSelects` | src/pipelines/regex_based_cleaning.py:31-43 | the records are the kept outputs of the steps before the first abort, one per step and in order |
| `KeywordStage.KeptRecordsFollowInput` | src/pipelines/regex_based_cleaning.py:31-43 | every record is the unchanged decoding of a distinct earlier line, in file order, with a non-empty matching text; every qualifying line before the stopping point is among them |
| `KeywordStage.FilterJsonl` | src/pipelines/regex_based_cleaning.py:17-57 | the output name is derived from the input path, and the run is the one the per-line steps determine |
| `KeywordStage.ScanFile` | src/pipelines/regex_based_cleaning.py:25-45 | the loop, with its early exit, computes exactly the run of the file's steps |
| `KeywordStage.OutputName` | src/pipelines/regex_based_cleaning.py:19-21 | the name ends in "_regex_cleaned.jsonl", the part before that suffix is `splitext(basename(input))[0]`, and it is a bare file name, with no '/' |
| `KeywordStage.OutputNameOfJsonl` | src/pipelines/regex_based_cleaning.py:19-21 | "dir/name.jsonl" becomes "name_regex_cleaned.jsonl" |
| `IngestStage.PostText` | src/steps/ingest.py:36 | the post text has no whitespace at its ends |
| `IngestStage.PostTextJoins` | src/steps/ingest.py:36 | the post text is the strip of title, one space and body, with a missing key read as "" |
| `IngestStage.TitleOnlyPost` | src/steps/ingest.py:36 | a post with a stripped, non-empty title and no body has the title as its text |
| `IngestStage.EmptyPostSkipped` | src/steps/ingest.py:36-39 | a post with neither title nor body writes nothing |
| `IngestStage.UntimedPostSkipped` | src/steps/ingest.py:40-41 | a post whose `created_utc` is missing or falsy writes nothing |
| `IngestStage.Skinny` | src/steps/ingest.py:43-47 | the slim record has exactly the keys text, date and year, in that order, holding the text, the formatted date and the year |
| `IngestStage.EmitsIff` | src/steps/ingest.py:33-47 | a line is written exactly when it decodes to a dict, title, one space and body (a missing key read as "") strip in the sense of `StripOf` to something non-empty, `created_utc` is present and not one of Python's falsy values, and the date conversion succeeds |
| `IngestStage.Extract` | src/steps/ingest.py:32-51 | a line writes a record exactly when it decodes to a dict with non-empty joined text, a truthy timestamp and a successful date conversion; the record is the slim record of those values |
| `IngestStage.ExtractFile` | src/steps/ingest.py:27-51 | the loop writes the per-line records in file order and `count` is their number |
| `IngestStage.SkinnyExtraction` | src/steps/ingest.py:12-55 | the output path is derived from the input; the records are the per-line records in order; `count` is their number, at most the number of lines |
| `IngestStage.RecordsFollowInput` | src/steps/ingest.py:31-51 | records correspond one-to-one and in order with the emitting lines; every record has exactly the three keys and a non-empty, stripped text |
| `IngestStage.OutputPath` | src/steps/ingest.py:17-25 | the path is "data/interim", '/', then the input's stem followed by "_result.jsonl" |
| `IngestStage.ResultNameIsRelative` | src/steps/ingest.py:21-25 | the result file name is non-empty, does not start with '/' and has no '/', so joining it to the output directory appends it |
| `IngestStage.OutputPathOfJsonl` | src/steps/ingest.py:17-25 | "dir/name.jsonl" is written to "data/interim/name_result.jsonl" |

## Left out

- Model and tokenizer loading, the device and precision choice, tokenisation with padding and truncation at 512 tokens, the forward pass and the argmax over floating-point logits. These are foreign library calls on floating point; they are the abstract `classify`.
- The DataLoader's worker processes and `pin_memory`. Only its sequential batching (`Streams.Chunk`) is modelled. The model passes the non-positive batch size rejection on as `BadBatchSize`.
- The empty-batch `continue`. A sequential DataLoader never yields an empty batch (`Streams.ChunkSizes`), so that branch cannot fire.
- The JSON parser and serialiser. `parse` is abstract, and a written record is the JSON value that `json.dumps` would serialise. A `parse` that mirrors `json.loads` yields each key once, the last duplicate winning, but no result here needs that: they hold for any `parse`. `Json.PutKeepsKeysUnique` shows that `d[k] = v` keeps unique keys unique. NaN and Infinity literals and the numeric formatting of floats are not modelled.
- `parse`: it has only two outcomes, a value or a `JSONDecodeError`. Other exceptions `json.loads` can raise are not modelled. These include `RecursionError` on deeply nested input and `ValueError` on an integer literal past Python's digit limit. In the keyword stage such an error would end the pass, but the model skips or scans the line. JSON `\uD800`-style escapes that decode to a lone surrogate cannot be held in a Dafny `string` and are not modelled either.
- `classify`: it assumes each prediction depends on its own text only. The source tokenises a whole batch with padding and may run in float16 on a GPU, so a prediction is not guaranteed to be independent of its batch mates. The batching results (`ClassifierStage.DecisionsAppend`, `ClassifierStage.ProcessBatches`) rest on this assumption.
- `DEPRESSION_REGEX`. It is the abstract predicate `matches`; word boundaries and case folding are not re-implemented.
- `datetime.fromtimestamp` and `strftime`. They depend on the local time zone and are the abstract `toDate`.
- `str()` of numbers, lists and dicts inside the ingest f-string. It is the abstract `repr`; strings, `None`, `True` and `False` are rendered explicitly.
- File opening and closing, `os.makedirs`, printing, `tqdm`, timing and the `FileNotFoundError` handler. A file is given as the sequence of its lines.
- Errors while a file is read and decoded as text. A `UnicodeDecodeError` from iterating the input (src/steps/ingest.py:31, outside the per-line `try`) or from `readlines()` (src/pipelines/slm_based_cleaning.py:24) would end those stages; in the keyword stage the handler at src/pipelines/regex_based_cleaning.py:56-57 would end the pass. The model takes every input file to decode into its lines.
- Windows path semantics (`ntpath`). Paths are posix paths with '/' as the only separator.
- `str.lower` beyond ASCII. No non-ASCII code point lower-cases to 'n', 'o' or 't', so the "not" test is exact.
- The zenml `@step` decorator and `run_pipeline.py`, which is orchestration glue.
- `Text.ReplaceAll`: its contract does not characterise the full output of `str.replace`. The exact results used are proved separately (`ClassifierStage.OutputPathOfJsonl`, `ClassifierStage.OutputPathWithoutJsonl`).
- `ClassifierStage.OutputPath`: it states the directory and that the name is a single component. The exact name is given by `ClassifierStage.OutputPathOfJsonl` and `ClassifierStage.OutputPathWithoutJsonl` for the file names the pipeline uses.
- `IngestStage.PostText`: its contract states only that the text is stripped. The join itself is `IngestStage.PostTextJoins`.
- `Json.Format`: the contract pins down only string values. `None`, `True` and `False` are rendered by name in the body, and other values through `repr`.
