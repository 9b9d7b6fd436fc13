/** The step that pulls a JSON object out of the model's reply:
    `re.search(r"\{.*\}", raw, re.DOTALL)` and `match.group(0)`.

    `BraceSpan` is the plain rule the extractor amounts to: from the first
    `{` to the last `}`. `SearchFrom` is the regular-expression search itself
    (leftmost start, then the longest match `.*` can give back), stated for
    either setting of DOTALL; `BraceSpanIsRegexSearch` proves the two agree
    under DOTALL. */
module Extraction {
  import opened PyRuntime

  /** The message of the ValueError raised when nothing matches. */
  const NoJsonMessage := "No JSON object found in model output."

  /** The half-open slice s[start..end] of the raw output. */
  datatype Span = Span(start: nat, end: nat)

  /** The first index at or after `from` that holds `c`. */
  function FirstIndexFrom(s: string, c: char, from: nat): (r: Option<nat>)
    requires from <= |s|
    ensures r.Some? ==> from <= r.value < |s| && s[r.value] == c
    ensures r.Some? ==> forall k :: from <= k < r.value ==> s[k] != c
    ensures r.None? ==> forall k :: from <= k < |s| ==> s[k] != c
    decreases |s| - from
  {
    if from == |s| then None
    else if s[from] == c then Some(from)
    else FirstIndexFrom(s, c, from + 1)
  }

  /** The last index below `upto` that holds `c`. */
  function LastIndexBefore(s: string, c: char, upto: nat): (r: Option<nat>)
    requires upto <= |s|
    ensures r.Some? ==> r.value < upto && s[r.value] == c
    ensures r.Some? ==> forall k :: r.value < k < upto ==> s[k] != c
    ensures r.None? ==> forall k :: 0 <= k < upto ==> s[k] != c
  {
    if upto == 0 then None
    else if s[upto - 1] == c then Some(upto - 1)
    else LastIndexBefore(s, c, upto - 1)
  }

  /** From the first `{` of `s` to the last `}`, when the last `}` comes
      after the first `{`. */
  function BraceSpan(s: string): (r: Option<Span>)
    ensures r.Some? <==> exists i, j :: 0 <= i < j < |s| && s[i] == '{' && s[j] == '}'
    ensures r.Some? ==> r.value.start + 2 <= r.value.end <= |s|
    ensures r.Some? ==> s[r.value.start] == '{' && s[r.value.end - 1] == '}'
    ensures r.Some? ==> forall k :: 0 <= k < r.value.start ==> s[k] != '{'
    ensures r.Some? ==> forall k :: r.value.end <= k < |s| ==> s[k] != '}'
  {
    match FirstIndexFrom(s, '{', 0)
    case None => None
    case Some(open) =>
      match LastIndexBefore(s, '}', |s|)
      case None => None
      case Some(close) => if open < close then Some(Span(open, close + 1)) else None
  }

  /** The search and `match.group(0)`, raising ValueError when there is no
      match. */
  function Extract(raw: string): (r: Py<string>)
    ensures r.Ok? <==> exists i, j :: 0 <= i < j < |raw| && raw[i] == '{' && raw[j] == '}'
    ensures r.Ok? ==> BraceSpan(raw).Some? && r.value == raw[BraceSpan(raw).value.start .. BraceSpan(raw).value.end]
    ensures r.Ok? ==> |r.value| >= 2 && r.value[0] == '{' && r.value[|r.value| - 1] == '}'
    ensures r.Raise? ==> r.exc == Exception(ValueError, NoJsonMessage)
  {
    match BraceSpan(raw)
    case Some(span) => Ok(raw[span.start .. span.end])
    case None => Raise(Exception(ValueError, NoJsonMessage))
  }

  // ---------------------------------------------------------------------
  // The regular expression `\{.*\}` and Python's search for it.

  /** Whether `.` matches `c`: with DOTALL every character, otherwise every
      character but a newline. */
  predicate DotMatches(c: char, dotAll: bool) {
    dotAll || c != '\n'
  }

  /** s[i..e] is a match of `\{.*\}`: a `{`, any characters `.` accepts,
      and a `}`. */
  ghost predicate MatchesSpan(s: string, i: nat, e: nat, dotAll: bool) {
    i + 2 <= e <= |s| && s[i] == '{' && s[e - 1] == '}' &&
    forall k :: i < k < e - 1 ==> DotMatches(s[k], dotAll)
  }

  /** Where the run of characters that `.*` consumes from `from` stops. */
  function DotRunEnd(s: string, from: nat, dotAll: bool): (e: nat)
    requires from <= |s|
    ensures from <= e <= |s|
    ensures forall k :: from <= k < e ==> DotMatches(s[k], dotAll)
    ensures e < |s| ==> !DotMatches(s[e], dotAll)
  {
    if dotAll then |s|
    else match FirstIndexFrom(s, '\n', from)
      case Some(n) => n
      case None => |s|
  }

  /** The match anchored at `i`: `.*` first takes all it can, then gives
      characters back one at a time until `\}` matches; the result is the
      end of the match, which is therefore the longest one at `i`. */
  function MatchAt(s: string, i: nat, dotAll: bool): (r: Option<nat>)
    requires i < |s|
    ensures r.Some? ==> MatchesSpan(s, i, r.value, dotAll)
    ensures r.Some? ==> forall e: nat :: MatchesSpan(s, i, e, dotAll) ==> e <= r.value
    ensures r.None? ==> forall e: nat :: !MatchesSpan(s, i, e, dotAll)
  {
    if s[i] != '{' then None
    else
      var m := DotRunEnd(s, i + 1, dotAll);
      match LastIndexBefore(s, '}', m)
      case Some(j) =>
        if i < j then Some(j + 1) else None
      case None => None
  }

  /** `re.search` from position `from`: the leftmost position with a match,
      and there the match `MatchAt` finds. */
  function SearchFrom(s: string, from: nat, dotAll: bool): (r: Option<Span>)
    requires from <= |s|
    ensures r.Some? ==> from <= r.value.start && MatchesSpan(s, r.value.start, r.value.end, dotAll)
    ensures r.Some? ==> forall e: nat :: MatchesSpan(s, r.value.start, e, dotAll) ==> e <= r.value.end
    ensures forall i, e :: from <= i && (r.None? || i < r.value.start) ==> !MatchesSpan(s, i, e, dotAll)
    decreases |s| - from
  {
    if from == |s| then None
    else match MatchAt(s, from, dotAll)
      case Some(e) => Some(Span(from, e))
      case None => SearchFrom(s, from + 1, dotAll)
  }

  /** Under DOTALL the regular-expression search finds exactly the span
      from the first `{` to the last `}`. */
  lemma BraceSpanIsRegexSearch(s: string)
    ensures SearchFrom(s, 0, true) == BraceSpan(s)
  {
    var found := SearchFrom(s, 0, true);
    match BraceSpan(s)
    case None =>
    case Some(span) =>
      assert MatchesSpan(s, span.start, span.end, true);
      var st, en := found.value.start, found.value.end;
      assert st <= span.start;
      assert MatchesSpan(s, st, en, true);
      assert st == span.start;
      assert span.end <= en;
      assert s[en - 1] == '}';
  }

  /** Without DOTALL a newline stops the match: `{\n}` has none, while the
      extractor's DOTALL search takes the whole of it. */
  lemma NewlineNeedsDotAll()
    ensures SearchFrom("{\n}", 0, false).None?
    ensures SearchFrom("{\n}", 0, true) == Some(Span(0, 3))
  {
  }

  // ---------------------------------------------------------------------
  // What the extractor returns for outputs of a known shape.

  /** An object surrounded by prose with no `{` before it and no `}` after
      it is returned exactly. */
  lemma EmbeddedObject(lead: string, obj: string, trail: string)
    requires |obj| >= 2 && obj[0] == '{' && obj[|obj| - 1] == '}'
    requires forall k :: 0 <= k < |lead| ==> lead[k] != '{'
    requires forall k :: 0 <= k < |trail| ==> trail[k] != '}'
    ensures Extract(lead + obj + trail) == Ok(obj)
  {
    var s := lead + obj + trail;
    var o, c := |lead|, |lead| + |obj| - 1;
    assert s[o] == obj[0] && s[c] == obj[|obj| - 1];
    var span := BraceSpan(s).value;
    assert span.start == o by {
      forall k | 0 <= k < o ensures s[k] != '{' { assert s[k] == lead[k]; }
    }
    assert span.end == c + 1 by {
      forall k | c < k < |s| ensures s[k] != '}' { assert s[k] == trail[k - c - 1]; }
    }
    assert s[o .. c + 1] == obj;
  }

  /** Two objects with prose between them come back as one span, prose
      included. */
  lemma TwoObjectsMerge(first: string, prose: string, second: string)
    requires |first| >= 2 && first[0] == '{' && first[|first| - 1] == '}'
    requires |second| >= 2 && second[0] == '{' && second[|second| - 1] == '}'
    ensures Extract(first + prose + second) == Ok(first + prose + second)
  {
    var whole := first + prose + second;
    assert whole[0] == '{' && whole[|whole| - 1] == '}';
    EmbeddedObject("", whole, "");
    assert "" + whole + "" == whole;
  }

  /** Extracting again from an extracted span gives the span back. */
  lemma ExtractIdempotent(raw: string)
    requires Extract(raw).Ok?
    ensures Extract(Extract(raw).value) == Extract(raw)
  {
    var span := Extract(raw).value;
    EmbeddedObject("", span, "");
    assert "" + span + "" == span;
  }
}
