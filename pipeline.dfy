/** `main`: one run of the extractor, a straight sequence of gates. The
    file system is a map from paths to contents; the JSON parser, the
    schema renderer, the remote model, the schema validator and the JSON
    writer are functions supplied by the caller. The run does not change
    anything itself: it returns how it ended and the file and model
    operations it performed, in order. */
module Pipeline {
  import opened PyRuntime
  import opened Prompt
  import opened Extraction
  import opened Validation

  /** The command line: `--input` is optional, `--schema` and `--output`
      are required. */
  datatype Args = Args(input: Option<string>, schema: string, output: string)

  /** The collaborators whose code is not part of the model. */
  datatype Oracles<!J> = Oracles(
    loads: string -> Py<J>,                        // `json.loads`, and `json.load` on a file's text
    render: J -> string,                           // how the f-string renders the schema
    generate: (string, string, string) -> Py<string>, // model name, system instruction, prompt to reply text
    validate: (J, J) -> Py<()>,                    // `jsonschema.validate(instance, schema)`
    dump: J -> string)                             // `json.dump(..., indent=2)`

  /** A file or model operation the run performs. */
  datatype Event =
    | ReadFile(path: string)
    | CallModel(prompt: string)
    | WriteFile(path: string, contents: string)

  /** How a run ends: nothing to do, an exception escaping `main`, the
      reply not parsing, the document failing the schema, or the document
      saved. */
  datatype RunOutcome<J> =
    | NoInput
    | Aborted(error: Exception)
    | ParseFailed(message: string, raw: string)
    | Invalid(message: string, doc: J)
    | Saved(doc: J)

  /** `if not args.input`: an absent path and an empty one both mean "no
      input". */
  predicate HasInput(args: Args): (present: bool)
    ensures present ==> args.input.Some? && |args.input.value| > 0
    ensures !present ==> args.input == None || args.input == Some("")
  {
    args.input.Some? && args.input.value != ""
  }

  /** `load_file`: the file's text, or FileNotFoundError. */
  function LoadFile(files: map<string, string>, path: string): (r: Py<string>)
    ensures r.Ok? <==> path in files
    ensures r.Ok? ==> r.value == files[path]
    ensures r.Raise? ==> r.exc.cls == FileNotFoundError
  {
    if path in files then Ok(files[path]) else Raise(Exception(FileNotFoundError, path))
  }

  /** `load_json`: the parsed file, or whatever opening or parsing raised. */
  function LoadJson<J>(files: map<string, string>, loads: string -> Py<J>, path: string): (r: Py<J>)
    ensures path !in files ==> r.Raise? && r.exc.cls == FileNotFoundError
    ensures path in files ==> r == loads(files[path])
  {
    match LoadFile(files, path)
    case Ok(text) => loads(text)
    case Raise(e) => Raise(e)
  }

  /** `generate_structured_output`: the model's reply to the prompt built
      from the text and the rendered schema. */
  function GenerateStructuredOutput<J>(o: Oracles<J>, text: string, schema: J): (r: Py<string>)
    ensures r == o.generate(ModelName, SystemInstruction, BuildPrompt(text, o.render(schema)))
  {
    o.generate(ModelName, SystemInstruction, BuildPrompt(text, o.render(schema)))
  }

  /** The input text and the schema, when the run gets as far as loading
      both. */
  ghost function Loaded<J>(args: Args, files: map<string, string>, o: Oracles<J>): Option<(string, J)> {
    if !HasInput(args) then None
    else match (LoadFile(files, args.input.value), LoadJson(files, o.loads, args.schema))
      case (Ok(text), Ok(schema)) => Some((text, schema))
      case _ => None
  }

  /** The schema and the model's reply, when the run gets as far as the
      extraction. */
  ghost function Reached<J>(args: Args, files: map<string, string>, o: Oracles<J>): Option<(J, string)> {
    match Loaded(args, files, o)
    case None => None
    case Some((text, schema)) =>
      match GenerateStructuredOutput(o, text, schema)
      case Ok(raw) => Some((schema, raw))
      case Raise(_) => None
  }

  /** The first half of `main` once an input path is given: load the text,
      load the schema, and ask the model. Returns the schema and the reply,
      or the exception that stopped it. */
  method LoadAndGenerate<J>(args: Args, files: map<string, string>, o: Oracles<J>)
    returns (answer: Py<(J, string)>, io: seq<Event>)
    requires HasInput(args)
    // The input text is read first; a file that cannot be loaded stops the run with the
    // exception loading raised.
    ensures |io| > 0 && io[0] == ReadFile(args.input.value)
    ensures LoadFile(files, args.input.value).Raise? ==>
      answer == Raise(LoadFile(files, args.input.value).exc) && io == [ReadFile(args.input.value)]
    ensures LoadFile(files, args.input.value).Ok? && LoadJson(files, o.loads, args.schema).Raise? ==>
      answer == Raise(LoadJson(files, o.loads, args.schema).exc) &&
      io == [ReadFile(args.input.value), ReadFile(args.schema)]
    // With both loaded, the model is asked once, with the loaded text and schema, and its
    // reply or its exception is passed on.
    ensures Loaded(args, files, o).Some? ==>
      var (text, schema) := Loaded(args, files, o).value;
      io == [ReadFile(args.input.value), ReadFile(args.schema), CallModel(BuildPrompt(text, o.render(schema)))] &&
      answer == match GenerateStructuredOutput(o, text, schema)
        case Ok(raw) => Ok((schema, raw))
        case Raise(e) => Raise(e)
    ensures Reached(args, files, o) == if answer.Ok? then Some(answer.value) else None
  {
    io := [ReadFile(args.input.value)];
    var text := LoadFile(files, args.input.value);
    if text.Raise? {
      answer := Raise(text.exc);
      return;
    }
    io := io + [ReadFile(args.schema)];
    var schema := LoadJson(files, o.loads, args.schema);
    if schema.Raise? {
      answer := Raise(schema.exc);
      return;
    }
    io := io + [CallModel(BuildPrompt(text.value, o.render(schema.value)))];
    var raw := GenerateStructuredOutput(o, text.value, schema.value);
    answer := if raw.Ok? then Ok((schema.value, raw.value)) else Raise(raw.exc);
  }

  /** The second half of `main`: pull the object out of the reply, parse
      it, validate it, and write it when it is valid. Inside the `try`, the
      search raises ValueError and the parser whatever it raises; the
      handler takes JSONDecodeError only. */
  method ExtractAndSave<J>(output: string, schema: J, raw: string, o: Oracles<J>)
    returns (outcome: RunOutcome<J>, writes: seq<Event>)
    // No brace span: the ValueError escapes the JSONDecodeError handler. A span that does not
    // parse: a JSONDecodeError is reported with the raw reply. A parsed document is written
    // exactly when the validator accepts it; a ValidationError reports it as invalid.
    ensures match Extract(raw)
      case Raise(_) => outcome == Aborted(Exception(ValueError, NoJsonMessage)) && writes == []
      case Ok(span) =>
        match o.loads(span)
        case Raise(e) =>
          outcome == (if IsInstance(e, JSONDecodeError) then ParseFailed(e.message, raw) else Aborted(e)) &&
          writes == []
        case Ok(doc) =>
          match o.validate(doc, schema)
          case Ok(_) => outcome == Saved(doc) && writes == [WriteFile(output, o.dump(doc))]
          case Raise(e) =>
            outcome == (if IsInstance(e, ValidationError) then Invalid(e.message, doc) else Aborted(e)) &&
            writes == []
  {
    writes := [];
    var matched := Extract(raw);
    var parsed: Py<J> := if matched.Raise? then Raise(matched.exc) else o.loads(matched.value);
    if parsed.Raise? {
      if IsInstance(parsed.exc, JSONDecodeError) {
        outcome := ParseFailed(parsed.exc.message, raw);
      } else {
        outcome := Aborted(parsed.exc);
      }
      return;
    }

    var checked := ValidateJson(o.validate, parsed.value, schema);
    if checked.Raise? {
      outcome := Aborted(checked.exc);
      return;
    }
    var (valid, error) := checked.value;
    if valid {
      writes := [WriteFile(output, o.dump(parsed.value))];
      outcome := Saved(parsed.value);
    } else {
      outcome := Invalid(error, parsed.value);
    }
  }

  /** `main`, from the `--input` check to the end. */
  method Run<J>(args: Args, files: map<string, string>, o: Oracles<J>) returns (outcome: RunOutcome<J>, io: seq<Event>)
    // Without an input path nothing is read, asked or written.
    ensures !HasInput(args) ==> outcome == NoInput && io == []
    ensures HasInput(args) ==> !outcome.NoInput? && |io| > 0 && io[0] == ReadFile(args.input.value)
    // A file that cannot be loaded ends the run with the exception loading raised.
    ensures HasInput(args) && LoadFile(files, args.input.value).Raise? ==>
      outcome == Aborted(LoadFile(files, args.input.value).exc) && io == [ReadFile(args.input.value)]
    ensures HasInput(args) && LoadFile(files, args.input.value).Ok? && LoadJson(files, o.loads, args.schema).Raise? ==>
      outcome == Aborted(LoadJson(files, o.loads, args.schema).exc) &&
      io == [ReadFile(args.input.value), ReadFile(args.schema)]
    // A failing model call ends the run with its exception.
    ensures Loaded(args, files, o).Some? ==>
      var (text, schema) := Loaded(args, files, o).value;
      GenerateStructuredOutput(o, text, schema).Raise? ==>
        outcome == Aborted(GenerateStructuredOutput(o, text, schema).exc)
    // The model is asked once, as the third operation, exactly when both files load; the
    // prompt embeds the loaded text and the same schema the document is validated against.
    ensures Loaded(args, files, o).Some? ==>
      var (text, schema) := Loaded(args, files, o).value;
      |io| >= 3 && io[2] == CallModel(BuildPrompt(text, o.render(schema)))
    ensures forall k :: 0 <= k < |io| && io[k].CallModel? ==> k == 2 && Loaded(args, files, o).Some?
    // Once both files load, the operations are exactly: read the text, read the schema, ask
    // the model, and write the output only on the saved path.
    ensures Loaded(args, files, o).Some? ==>
      var (text, schema) := Loaded(args, files, o).value;
      io[..3] == [ReadFile(args.input.value), ReadFile(args.schema), CallModel(BuildPrompt(text, o.render(schema)))] &&
      |io| == if outcome.Saved? then 4 else 3
    // The output is written once, last, and only on the saved path.
    ensures outcome.Saved? ==> |io| > 0 && io[|io| - 1] == WriteFile(args.output, o.dump(outcome.doc))
    ensures forall k :: 0 <= k < |io| && io[k].WriteFile? ==> outcome.Saved? && k == |io| - 1
    // Failing before the model answers ends the run with an exception.
    ensures Reached(args, files, o).None? ==> outcome.NoInput? || outcome.Aborted?
    // Once the model has answered: the outcome for every way the extraction, the parse and
    // the validation can go. No brace span gives the ValueError that escapes the
    // JSONDecodeError handler; an invalid document is reported and not written.
    ensures Reached(args, files, o).Some? ==>
      var (schema, raw) := Reached(args, files, o).value;
      match Extract(raw)
      case Raise(_) => outcome == Aborted(Exception(ValueError, NoJsonMessage))
      case Ok(span) =>
        match o.loads(span)
        case Raise(e) => outcome == if IsInstance(e, JSONDecodeError) then ParseFailed(e.message, raw) else Aborted(e)
        case Ok(doc) =>
          match o.validate(doc, schema)
          case Ok(_) => outcome == Saved(doc)
          case Raise(e) => outcome == if IsInstance(e, ValidationError) then Invalid(e.message, doc) else Aborted(e)
  {
    if !HasInput(args) {
      outcome, io := NoInput, [];
      return;
    }
    var answer;
    answer, io := LoadAndGenerate(args, files, o);
    if answer.Raise? {
      outcome := Aborted(answer.exc);
      return;
    }
    var writes;
    outcome, writes := ExtractAndSave(args.output, answer.value.0, answer.value.1, o);
    io := io + writes;
  }
}
