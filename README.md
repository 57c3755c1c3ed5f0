# Test-Generator backend: upload, extraction, prompt and reply cleanup

This project models the text pipeline of the Test-Generator backend, a Flask
service that turns an uploaded source file or zip archive into generated unit
tests. One request goes through four stages:

- **Upload route** (`backend/app.py`). `allowed_file` accepts a filename by the
  text after its last dot. The route `upload_and_generate_tests_route`
  answers in a fixed order of early returns: validation (400), then the
  extraction outcome (400/500), then the generation outcome (500/200).
- **Extraction** (`backend/file_processor.py`, `process_file_upload`). A
  declared zip is read member by member. Members with a code suffix are
  collected, and a member whose read fails is skipped. The contents are then
  joined with a separator that names the last entry of `namelist()`. A
  `single` upload returns the whole file read in text mode, so `\r\n` and
  `\r` read as `\n`. Any other upload type raises
  `ValueError`.
- **Prompt** (`backend/prompt_builder.py`, `construct_llm_prompt`). A
  deterministic string builder. It interpolates its arguments verbatim and
  embeds the code, unescaped, inside a triple-backtick fence.
- **Reply cleanup** (`backend/llm_service.py`, `get_tests_from_deepseek`). A
  blank reply gives `None`. Otherwise the result is the stripped body of the
  leftmost fenced block, or the stripped reply when there is no block.

Modules, one per file:

- `Wrappers` holds `Option`.
- `PyStr` holds the Python `str` operations used: `strip`, `lower`,
  `rfind`/`rsplit`, `endswith`, `join` and truthiness.
- `PyPath` holds `os.path.join` and `os.path.splitext` as `posixpath`
  defines them.
- `FileProcessor`, `PromptBuilder`, `LlmService` and `App` model the four
  stages.

The zip loop of `process_file_upload` is an imperative method (`CollectCode`)
proved against the specification function `Collected`. The other stages are
pure functions. The route is a decision function: its inputs are the request,
`secure_filename`, the extraction outcome and the chat call (a function from
prompt to reply).

## Model

| member | source | states |
|---|---|---|
| PyStr.Strip | backend/llm_service.py:47 | `strip()` is empty exactly when the text is all whitespace, and its result neither starts nor ends with whitespace |
| PyStr.StripIsTrimmedSlice | backend/llm_service.py:57 | `strip()` returns a slice of its input, and only whitespace lies outside the slice |
| PyStr.Lower | backend/app.py:27 | `lower()` keeps the length of the text |
| PyStr.LowerEachChar | backend/app.py:27 | `lower()` maps each character on its own, in place: position i of the result is character i lowered |
| PyStr.RFind | backend/app.py:27 | the last-dot search gives -1 exactly when there is no dot; otherwise it gives a dot with no dot after it |
| PyStr.RFindIsLastOccurrence | backend/app.py:27 | an index is a last occurrence of the character exactly when the character occurs and the search returns that index |
| PyStr.LastOccurrenceExists | backend/app.py:27 | a character occurs exactly when it has a last occurrence |
| PyStr.JoinAppend | backend/file_processor.py:31 | joining one more part adds exactly one separator, placed before the new part |
| PyStr.JoinLength | backend/file_processor.py:31 | k parts are joined with exactly k - 1 separators and nothing else |
| PyStr.JoinStartsWithFirst | backend/file_processor.py:31 | the joined text begins with the first part, with no separator before it |
| PyStr.JoinSplit | backend/file_processor.py:31 | between the parts before index i and the parts from i on sits exactly one separator |
| PyPath.Join | backend/file_processor.py:12 | the saved path ends with the filename, and starts with the directory unless the filename is absolute |
| PyPath.SplitExt | backend/app.py:59 | root and extension concatenate back to the name; the extension is empty or is one dot followed by no dot and no slash |
| PyPath.SplitExtDropsLastExtension | backend/app.py:59 | a name whose last component has a non-dot character before its last dot splits at that last dot |
| PyPath.SplitExtNoExtension | backend/app.py:59 | a name in whose last component every dot has only dots before it (no dot, `.bashrc`, `..`) has no extension: the root is the whole name |
| LlmService.TagEnd | backend/llm_service.py:54 | the tag run after the opening backticks is the maximal run of `[A-Za-z0-9_]` characters |
| LlmService.FindClose | backend/llm_service.py:54 | the lazy body ends at the first `\n` + three backticks at or after its start, and no closer lies before it |
| LlmService.FirstMatch | backend/llm_service.py:54 | the search gives the leftmost start that has an opener and a closer; its body ends at the first closer, and no earlier start matches |
| LlmService.FencedBody | backend/llm_service.py:54 | there is a match exactly when some start and body end match the pattern |
| LlmService.CleanReply | backend/llm_service.py:44-70 | the result is None exactly when the call raised or the content is missing or blank; otherwise it is trimmed of whitespace at both ends |
| LlmService.FirstBlockChosen | backend/llm_service.py:54-57 | the group is the body of the leftmost match, ending at its first closer |
| LlmService.FencedReplyYieldsStrippedBody | backend/llm_service.py:54-59 | a reply with a fenced block yields that block's body, stripped |
| LlmService.UnfencedReplyYieldsStrippedReply | backend/llm_service.py:60-65 | a non-blank reply without a block yields the whole reply stripped, and that result is not empty |
| LlmService.BlankBodyYieldsEmptyScript | backend/llm_service.py:56-59 | when the first block's body is whitespace only, the cleaned reply is `""`, not None |
| LlmService.TaggedBlockAfterProse | backend/llm_service.py:54-59 | a tagged block after prose without backticks, whose code contains no closing fence before the final one, yields only the stripped code inside it |
| PromptBuilder.Instruction | backend/prompt_builder.py:6-27 | the instruction is the fixed text with the language, module name and framework filled in; when the requests are truthy it ends with the lead-in followed by the requests |
| PromptBuilder.ConstructPrompt | backend/prompt_builder.py:29-36 | the prompt is the preamble, the code, the 10 characters of the two fences and the closing cue; nothing else is added |
| PromptBuilder.PromptStartsWithIntro | backend/prompt_builder.py:7 | every prompt begins with the fixed opening sentence |
| PromptBuilder.ValuesInterpolatedVerbatim | backend/prompt_builder.py:8-18 | the language follows "for the provided ", the module name follows "import " and the framework follows "Please use the ", all unchanged |
| PromptBuilder.RequestsInsertedOnlyWhenTruthy | backend/prompt_builder.py:23-27 | truthy requests are inserted with their lead-in right after the base instruction; `None` and `""` leave the prompt as without requests |
| PromptBuilder.SnippetFencedVerbatim | backend/prompt_builder.py:29-35 | the code appears verbatim between the opening fence line and the closing fence with its blank line, and the cue naming the framework ends the prompt |
| PromptBuilder.EmbeddedFenceNotEscaped | backend/prompt_builder.py:32-34 | a closing-fence line inside the code appears unchanged in the prompt, before the fence meant to close the code |
| FileProcessor.Collected | backend/file_processor.py:20-28 | the loop collects at most one content per member |
| FileProcessor.ZipCode | backend/file_processor.py:31 | with nothing collected the result is `""` |
| FileProcessor.ProcessUpload | backend/file_processor.py:4-45 | the path is the temp directory joined with the upload's filename; `ValueError` is raised exactly when the type is neither `single` nor a `zip` that is a valid archive; a valid zip gives `ZipCode` of its listing and `single` gives the text-mode read of the file; the error message is the invalid-archive sentence for `zip` and `Unknown upload type: ` followed by the type otherwise |
| FileProcessor.UniversalNewlines | backend/file_processor.py:35-37 | text-mode reading leaves no carriage return and never lengthens the text |
| FileProcessor.PlainTextReadsUnchanged | backend/file_processor.py:35-37 | a single file without carriage returns is read exactly as saved |
| FileProcessor.LineBreakReadsAsNewline | backend/file_processor.py:35-37 | a `\r\n` break, or a `\r` not followed by `\n`, after a line reads as one `\n` |
| FileProcessor.CrLfLinesReadAsLfLines | backend/file_processor.py:35-37 | a file of `\r\n`-separated lines reads as the same lines separated by `\n` |
| FileProcessor.CollectCode | backend/file_processor.py:20-28 | the loop's list equals `Collected`, and the loop variable ends holding the last listed name (None for an empty list) |
| FileProcessor.ProcessFileUpload | backend/file_processor.py:4-45 | the step-by-step operation gives exactly `ProcessUpload` |
| FileProcessor.CollectedAppend | backend/file_processor.py:19-26 | collection keeps `namelist()` order: collecting a concatenation concatenates the collections |
| FileProcessor.SkippedMemberKeepsRest | backend/file_processor.py:24-28 | a member with a wrong suffix or a failed read is skipped, and later members are still collected |
| FileProcessor.CollectedMembers | backend/file_processor.py:20-26 | a text is collected exactly when some readable member with a code suffix decodes to it |
| FileProcessor.WiderSuffixesNotCollected | backend/file_processor.py:23 | members ending in `.jsx`, `.tsx` or `.txt` are not code members |
| FileProcessor.ZipCodeLayout | backend/file_processor.py:31 | with k contents collected, the result's length is their total length plus k - 1 separators naming the last listed member, and it starts with the first content |
| FileProcessor.ZipCodeSeparatesNeighbours | backend/file_processor.py:20-31 | between collected contents i - 1 and i sits one separator naming the last listed member: the result is the join of the contents before i, that separator, and the join of the rest |
| FileProcessor.ZipCodeTrailingSkipped | backend/file_processor.py:20-31 | a skipped last entry adds no content but every separator then names it |
| FileProcessor.ZipCodeTrailingCollected | backend/file_processor.py:20-31 | a collected last entry appends its text after one more separator, and every separator then names it; alone it is the whole result with no header |
| FileProcessor.SeparatorNamesLastListed | backend/file_processor.py:20-31 | two collected files followed by an uncollected entry are joined by a header naming that last entry, and the first file has no header |
| App.ModuleName | backend/app.py:59 | the module name is a prefix of the sanitised filename |
| App.Validate | backend/app.py:42-55 | validation passes exactly when there is a file part, its filename is non-empty, `uploadType` is truthy and the file type is allowed |
| App.HandleUpload | backend/app.py:36-162 | the status is 200, 400 or 500; it is 200 exactly when the body is a success; a prompt is sent only after validation passed |
| App.SentPrompt | backend/app.py:99-109 | `construct_llm_prompt` gets the extracted code, the module name of the sanitised filename and the raw `language`, `framework` and `instructions` form fields, with defaults `python`, `unittest` and None; the prompt is longer than the code plus its two fences |
| App.FromProcessUpload | backend/file_processor.py:34-45 | the extractor's result reaches the route as code exactly when no `ValueError` was raised; the code and the saved path are passed on unchanged, and a `ValueError` keeps its message |
| App.ExtensionAfterLastDot | backend/app.py:25-27 | for any stem, even one with dots, `stem.ext` is allowed exactly when the lower-cased `ext` is in the allowed set |
| App.AllowedFile | backend/app.py:25-27 | `allowed_file`: the name has a dot and the lower-cased text after its last dot is one of the allowed extensions; an allowed name therefore has at least two characters after its last dot |
| App.AllowedFileIff | backend/app.py:25-27 | at the dot that has no dot after it, `allowed_file` holds exactly when the lower-cased text after that dot is an allowed extension |
| App.NoDotNotAllowed | backend/app.py:26 | a filename without a dot is never allowed |
| App.LastExtensionLowerCased | backend/app.py:22-27 | `<stem>.PY` is allowed and `<stem>.py.bak` is not, for every stem (so `a.tar.PY` passes and `x.py.bak` fails) |
| App.ModuleNameDropsFinalExtension | backend/app.py:57-59 | the module name of `stem.ext` is `stem` when the stem has a non-dot character and neither part has a slash |
| App.ValidationShortCircuits | backend/app.py:42-55 | a failed check answers 400 with its message, whatever extraction and the model would give, and sends no prompt |
| App.ValidationOrder | backend/app.py:42-55 | the checks run in order: file part, empty filename, missing `uploadType`, file type |
| App.ExtractionExceptionAnswers | backend/app.py:140-162 | a `ValueError` answers 400 with its message; any other exception answers 500 with the generic message |
| App.NoCodeAnswers500 | backend/app.py:85-87 | extracted code `None` answers 500 |
| App.BlankZipRejected | backend/app.py:89-95 | extracted code answers 400 exactly when it is blank and the type is `zip`; the message names the sanitised filename, and no prompt is sent |
| App.SentPromptUsesRawForm | backend/app.py:99-112 | the prompt sent uses the raw `language`, `framework` and `instructions` form values (defaults `python`, `unittest`) and the module name of the sanitised filename |
| App.GenerationOutcome | backend/app.py:126-138 | a falsy cleaned reply answers 500; otherwise the answer is 200 with the script, the sanitised filename and the upload type |
| App.SuccessNeedsEveryStage | backend/app.py:36-138 | a 200 answer means validation passed, code was extracted, a prompt was sent and the script is the non-empty cleaned reply |
| App.UnknownUploadTypeRejectedLate | backend/file_processor.py:38-40 | when the route's extraction step is `process_file_upload`'s outcome, an unknown but truthy upload type passes validation and is then answered 400 with `Unknown upload type: ...` |
| App.ZipWithoutCodeRejected | backend/app.py:89-95 | when the route's extraction step is `process_file_upload`'s outcome, a valid zip with no readable code member answers 400 naming the sanitised filename |
| App.UploadCheckWiderThanZipFilter | backend/file_processor.py:23 | `.jsx`, `.tsx` and `.txt` files pass the upload check, but zip members with those suffixes are not collected |

## Left out

- The extractor call: `backend/app.py:64` calls `file_processor.handle_and_extract_code` with four arguments, and `backend/file_processor.py` defines no such function. The route therefore takes the extraction outcome as an input. `App.FromProcessUpload` connects it to `process_file_upload` as written. With the code as shown, the call raises `AttributeError`, which is the `OtherException` outcome (500).
- Flask plumbing: routing, `request.files`/`request.form`, `jsonify` and the 16 MB upload limit. The request is a record of optional fields.
- `secure_filename` is a werkzeug function; it is an opaque function parameter.
- File-system effects: `os.makedirs`, `save`, `os.remove` and `shutil.rmtree`. The model only records the saved path that `process_file_upload` returns or removes before raising `ValueError`. The cleanup branches of `backend/app.py:91-93`, `114-124` and `142-161` are not modelled. This includes an exception from `rmtree` at line 93, which is not caught there.
- Zip parsing and decoding: `zipfile.is_zipfile`, `ZipFile` and UTF-8 decoding with `errors='ignore'` are given as inputs. These are the validity flag, each member's decoded text or read failure, and the single file's decoded text. The text-mode newline translation of the `single` branch is modelled by `FileProcessor.UniversalNewlines`; an incremental decoder's handling of a `\r` split across read chunks is not, since `f.read()` reads the whole file.
- The chat call (`ollama.chat`) and the `DEEPSEEK_MODEL_TAG` lookup: the call is a function from prompt to an abstract reply, which is a failure or content that may be missing.
- The first prompt built at `backend/app.py:71-83` from stripped, lower-cased values is discarded, and building it cannot fail. It is not modelled beyond `App.SentPromptUsesRawForm`.
- Dead code: the API placeholder and the `__main__` blocks of `backend/llm_service.py:72-137`, and the `index` route.
- Logging: all `print` and `app.logger` output.
- PyStr.Lower: only ASCII letters are lowered. Non-ASCII case mapping of `str.lower` is not modelled. It matters only for extensions with non-ASCII letters, and those are never allowed.
- PyPath.Join: POSIX `posixpath` semantics only.
- PromptBuilder.ConstructPrompt: the model does not prove that the fixed wording of the instruction contains no backticks. Facts about how a fence parser reads the whole prompt are therefore stated from the fence positions (`SnippetFencedVerbatim`, `EmbeddedFenceNotEscaped`), not from the start of the prompt.
- The upload type the code accepts is `zip` (or `single`); a zip with no collected code gives `""`, with no error of its own; the reply cleanup removes no artifact tags, so whatever the chosen text (the block body or the whole reply) contains is kept; and the snippet is put into the prompt without escaping its fences.
