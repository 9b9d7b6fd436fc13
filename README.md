# Schema-guided extractor: a Dafny model

This project models the core of `schema_guided_extractor.py`. The tool asks a
generative model to turn unstructured text into a JSON object that follows a
JSON Schema. It then pulls the object out of the model's reply, validates it
against the schema, and writes it only when it is valid.

Modules, one per component, one file each:

- `PyRuntime` (`pyruntime.dfy`): optional values, the outcome of a Python call
  (`Ok` or `Raise`), and the exception classes with the one subclass link the
  handlers depend on (`JSONDecodeError` derives from `ValueError`).
- `Prompt` (`prompt.dfy`): the model name, the system instruction (verbatim),
  and the user prompt. The prompt puts the text and the rendered schema
  between `---` separator lines and ends with `Extracted JSON object:`.
- `Extraction` (`extraction.dfy`): `re.search(r"\{.*\}", raw, re.DOTALL)`
  followed by `match.group(0)`. `BraceSpan` is the plain rule: from the first
  `{` to the last `}`. `SearchFrom` is the regular-expression search itself,
  for either DOTALL setting: the leftmost start, then the longest match that
  `.*` gives back. `BraceSpanIsRegexSearch` proves that the two agree under
  DOTALL.
- `Validation` (`validation.dfy`): `validate_json`, over a validator passed in
  as a function.
- `Pipeline` (`pipeline.dfy`): `main` as the method `Run`, built from
  `LoadAndGenerate` (load both files, ask the model) and `ExtractAndSave`
  (the `try` block, validation and the write). It has the same gates and
  early returns as `main`. It returns how the run ended and the
  list of file and model operations it performed.

Three behaviours of the code are worth stating outright; the model follows
the code in each:

- When the reply has no `{ ... }` span, the code raises `ValueError` inside a
  `try` whose handler catches only `json.JSONDecodeError`. `JSONDecodeError`
  derives from `ValueError`, not the other way round. So the exception escapes
  `main` and the run aborts with a traceback. It does not print a "no JSON
  found" report with the raw reply, which is what a reader of the handler
  might expect. `Run` ends such a run with `Aborted(ValueError)`.
- `if not args.input` treats an empty `--input ""` the same as a missing one
  (`Pipeline.HasInput`).
- The system instruction asks for "1.0 for strings" as the placeholder. Two of
  its literals join with no space between them ("schema.Do not add"). The
  constant `Prompt.SystemInstruction` keeps both.

## Model

| member | source | states |
|---|---|---|
| `Extraction.FirstIndexFrom` | schema_guided_extractor.py:84 | the index found holds the character and none before it (from the start point) does; None means the character does not occur |
| `Extraction.LastIndexBefore` | schema_guided_extractor.py:84 | the index found holds the character and none after it (below the bound) does; None means it does not occur |
| `Extraction.BraceSpan` | schema_guided_extractor.py:84-85 | a span exists iff some `}` comes after some `{`; the span starts at a `{` with no `{` before it, ends just after a `}` with no `}` after it, and is at least two characters long |
| `Extraction.Extract` | schema_guided_extractor.py:84-88 | succeeds iff some `}` follows some `{`, returning that contiguous slice of the reply, which starts with `{`, ends with `}` and has length at least 2; otherwise raises ValueError "No JSON object found in model output." |
| `Extraction.MatchAt` | schema_guided_extractor.py:84 | the match of `\{.*\}` anchored at a position is a match (a `{`, characters `.` accepts, a `}`) and the longest one there; None when no match starts there |
| `Extraction.SearchFrom` | schema_guided_extractor.py:84 | `re.search`: the match found starts at the leftmost position where any match starts and is the longest there; None means no match anywhere |
| `Extraction.BraceSpanIsRegexSearch` | schema_guided_extractor.py:84 | under DOTALL the regular-expression search returns exactly the first-`{`-to-last-`}` span |
| `Extraction.NewlineNeedsDotAll` | schema_guided_extractor.py:84 | `{\n}` has no match without DOTALL, and with DOTALL the whole of it is matched, newline included |
| `Extraction.EmbeddedObject` | schema_guided_extractor.py:84-88 | an object with no `{` before it and no `}` after it is extracted exactly, whatever prose surrounds it |
| `Extraction.TwoObjectsMerge` | schema_guided_extractor.py:84-88 | two brace groups with prose between them come back as one span, the prose included |
| `Extraction.ExtractIdempotent` | schema_guided_extractor.py:84-88 | extracting from an extracted span returns that span unchanged |
| `Prompt.BuildPrompt` | schema_guided_extractor.py:42-46 | the prompt opens with the text heading, holds the text between an opening `---` line and a closing `---` line, then the schema heading and the schema between separator lines, and ends with `Extracted JSON object:`; the text comes before the schema |
| `Prompt.PromptDeterminesInputs` | schema_guided_extractor.py:42-46 | two prompts that are equal and whose texts have the same length come from the same text and the same schema |
| `Prompt.SeparatorsAreNotEscaped` | schema_guided_extractor.py:42-46 | separators inside the text are not escaped: moving a closing separator and schema heading from the text into the schema gives the same prompt |
| `Validation.ValidateJson` | schema_guided_extractor.py:51-60 | `(True, "")` when the validator accepts; `(False, str(e))` when it raises a ValidationError; any other exception propagates; the flag is true exactly when the validator accepted |
| `Validation.ValidIffEmptyMessage` | schema_guided_extractor.py:51-60 | when the validator's error messages are non-empty, the flag is true exactly when the message is empty |
| `Pipeline.LoadFile` | schema_guided_extractor.py:14-17 | the file's text when the path exists, FileNotFoundError otherwise |
| `Pipeline.LoadJson` | schema_guided_extractor.py:19-22 | FileNotFoundError for a missing path, otherwise exactly what the parser makes of the file's text; a schema that does not parse raises outside any handler |
| `Pipeline.HasInput` | schema_guided_extractor.py:69 | an input is present only when `--input` was given and is non-empty; an absent or empty path both count as "no input" |
| `Pipeline.GenerateStructuredOutput` | schema_guided_extractor.py:24-49 | the model is called with the model name `gemini-1.5-flash`, the fixed system instruction and the prompt built from the text and the rendered schema, and its reply or exception is returned unchanged |
| `Pipeline.LoadAndGenerate` | schema_guided_extractor.py:73-79 | the input text is read first; a missing or unparsable file stops with the exception loading raised, after exactly the reads made so far; with both loaded the model is asked once with the loaded text and schema, and its reply (with the schema) or its exception is returned |
| `Pipeline.ExtractAndSave` | schema_guided_extractor.py:81-105 | for each way the search, the parse and the validation can go, the outcome: no span gives the ValueError that escapes the JSONDecodeError handler; a JSONDecodeError is reported with the raw reply and any other parser exception escapes; an accepted document is saved and is the only thing written; a ValidationError reports the document as invalid with the validator's message; any other validator exception escapes |
| `Pipeline.Run` | schema_guided_extractor.py:69-105 | without an input path nothing is read, asked or written; with one the outcome is never "no input", and a load or model failure aborts with that exception; the model is asked once, as the third operation, exactly when both files load, with the loaded text and the same schema used for validation; once both load the operations are exactly: read the text, read the schema, ask the model, and (only when Saved) write the output; after the reply the outcome is fixed for every extraction, parse and validation result (the no-span ValueError aborts, a JSONDecodeError is reported with the raw reply, a ValidationError gives Invalid with its message, acceptance gives Saved); the output is written once, last, and only when Saved |

## Left out

- The Gemini client is not modelled: the API key read from the environment, `genai.configure`, building the `GenerativeModel` and the network call. The model call is the parameter `generate`, given the model name, the system instruction and the prompt. Any error it raises ends the run.
- `json.loads`, `json.load`, `jsonschema.validate`, `json.dump` and the `str(dict)` rendering of the schema in the f-string are library code, so they are parameters (`Pipeline.Oracles`). JSON and JSON Schema are not re-implemented.
- The file system is a map from paths to text. A path that is not in the map raises FileNotFoundError. Its message is the path, not Python's `[Errno 2] No such file or directory: '<path>'`. Other errors from `open` (`IsADirectoryError`, `PermissionError`) and encoding errors while reading are not modelled. Neither are failures of the output `open` (for example, a missing directory) and partial writes. A write is recorded as an event carrying the serialized document.
- `argparse` (including its exit on a missing `--schema` or `--output`) and every `print` are not modelled. The outcomes `ParseFailed` and `Invalid` carry what those paths print.
- Prints are assumed never to raise. In the code, `print("[✓] Output is valid.")` runs just before the write. On a standard output that cannot encode U+2713, it raises `UnicodeEncodeError` and the valid document is never written. The model always writes on the valid path.
- The commented-out second client at the end of the file is dead code and is not modelled.
- A Python `str` can hold lone surrogates (for example from the `surrogateescape` error handler), and a Dafny `char`, a Unicode scalar value, cannot. Replies holding them are not modelled. Otherwise both index by code point, so spans start and end at the same positions.
- Only one run is modelled. Repeated runs are not.
