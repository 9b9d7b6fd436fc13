/** The request `generate_structured_output` sends to the model: a fixed
    model name and system instruction, and a user prompt that places the
    input text and the rendered schema between `---` separator lines. */
module Prompt {

  const ModelName := "gemini-1.5-flash"

  /** The system instruction, character for character, including the
      missing space where two of its literals meet ("schema.Do not add"). */
  const SystemInstruction :=
    "You are a helpful assistant that converts unstructured text into a valid JSON object. " +
    "You will be given unstructured text and a JSON schema. " +
    "Your task is to extract all relevant information from the text and format it *strictly* according to the provided JSON schema. " +
    "Use the schema as a template and populate the fields with data from the text. " +
    "If a field in the schema is not found in the text, include a plausible default of the correct type (e.g., 1.0 for strings, 0 for numbers, empty arrays or objects), but avoid using null unless explicitly allowed in the schema." +
    "Do not add any fields not present in the schema. Do not generate a different schema. " +
    "Return only the raw JSON object, without any additional text or formatting. The output must be valid JSON."

  const TextLabel := "Unstructured Text:\n"
  const SchemaLabel := "JSON Schema:\n"
  /** The separator line that opens a section ... */
  const Opening := "---\n"
  /** ... and the one that closes it, followed by a blank line. */
  const Closing := "\n---\n\n"
  const Trailer := "Extracted JSON object:"

  /** Where the text starts in every prompt. */
  const TextStart := |TextLabel| + |Opening|

  /** Where the schema starts in a prompt built around `text`. */
  function SchemaStart(text: string): nat {
    TextStart + |text| + |Closing| + |SchemaLabel| + |Opening|
  }

  /** A section: its heading, then `body` between separator lines. */
  function Section(heading: string, body: string): string {
    heading + Opening + body + Closing
  }

  /** The user prompt: the text section, the schema section, the trailer.
      `schema` is the schema as the f-string renders it. */
  function BuildPrompt(text: string, schema: string): (p: string)
    ensures |p| == SchemaStart(text) + |schema| + |Closing| + |Trailer|
    ensures p[..|TextLabel|] == TextLabel
    ensures p[TextStart - |Opening| .. TextStart] == Opening
    ensures p[TextStart .. TextStart + |text|] == text
    ensures p[TextStart + |text| .. TextStart + |text| + |Closing|] == Closing
    ensures TextStart + |text| < SchemaStart(text)
    ensures p[SchemaStart(text) - |Opening| - |SchemaLabel| .. SchemaStart(text) - |Opening|] == SchemaLabel
    ensures p[SchemaStart(text) - |Opening| .. SchemaStart(text)] == Opening
    ensures p[SchemaStart(text) .. SchemaStart(text) + |schema|] == schema
    ensures p[SchemaStart(text) + |schema| .. |p| - |Trailer|] == Closing
    ensures p[|p| - |Trailer| ..] == Trailer
  {
    Layout(TextLabel, SchemaLabel, Opening, Closing, Trailer, text, schema);
    Section(TextLabel, text) + Section(SchemaLabel, schema) + Trailer
  }

  /** Where each piece sits in one section. */
  lemma SectionPieces(head: string, open: string, body: string, close: string)
    ensures var s := head + open + body + close;
      && s[..|head|] == head
      && s[|head| .. |head| + |open|] == open
      && s[|head| + |open| .. |head| + |open| + |body|] == body
      && s[|head| + |open| + |body| ..] == close
  {
  }

  /** Where each piece sits in two sections followed by a tail. */
  lemma Layout(head1: string, head2: string, open: string, close: string, tail: string, body1: string, body2: string)
    ensures var p := (head1 + open + body1 + close) + (head2 + open + body2 + close) + tail;
      var start1 := |head1| + |open|;
      var start2 := start1 + |body1| + |close| + |head2| + |open|;
      && |p| == start2 + |body2| + |close| + |tail|
      && p[..|head1|] == head1
      && p[start1 - |open| .. start1] == open
      && p[start1 .. start1 + |body1|] == body1
      && p[start1 + |body1| .. start1 + |body1| + |close|] == close
      && p[start2 - |open| - |head2| .. start2 - |open|] == head2
      && p[start2 - |open| .. start2] == open
      && p[start2 .. start2 + |body2|] == body2
      && p[start2 + |body2| .. |p| - |tail|] == close
      && p[|p| - |tail| ..] == tail
  {
    var first, second := head1 + open + body1 + close, head2 + open + body2 + close;
    SectionPieces(head1, open, body1, close);
    SectionPieces(head2, open, body2, close);
    var p := first + second + tail;
    assert p[..|first|] == first && p[|first| .. |first| + |second|] == second;
    assert p[|first| + |second| ..] == tail;
  }

  /** Given the length of the text, the prompt determines the text and the
      schema it was built from. */
  lemma PromptDeterminesInputs(text1: string, schema1: string, text2: string, schema2: string)
    requires |text1| == |text2|
    requires BuildPrompt(text1, schema1) == BuildPrompt(text2, schema2)
    ensures text1 == text2 && schema1 == schema2
  {
  }

  /** Two sections and a tail, regrouped: `close + head2 + open` moves from
      the end of the first body to the start of the second. */
  lemma MoveAcross(head1: string, head2: string, open: string, close: string, tail: string, a: string, b: string, c: string)
    ensures (head1 + open + (a + close + head2 + open + b) + close) + (head2 + open + c + close) + tail
         == (head1 + open + a + close) + (head2 + open + (b + close + head2 + open + c) + close) + tail
  {
  }

  /** Nothing is escaped: a text that itself holds the closing separator and
      the schema heading gives the same prompt as a shorter text with that
      material moved into the schema. */
  lemma SeparatorsAreNotEscaped(a: string, b: string, c: string)
    ensures BuildPrompt(a + Closing + SchemaLabel + Opening + b, c)
         == BuildPrompt(a, b + Closing + SchemaLabel + Opening + c)
  {
    MoveAcross(TextLabel, SchemaLabel, Opening, Closing, Trailer, a, b, c);
  }
}
