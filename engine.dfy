/** The evaluation engine of app.py: lenient extraction of a JSON document
    from the model's reply, the upload extension gate, and the fixed fallback
    result substituted for any reply that does not parse to a truthy value. */
module Engine {
  import opened Py
  import opened Json
  import opened Text

  /** Python's `s[i:j]` for `0 <= i, j <= |s|`: empty when `j < i`. */
  function PySlice(s: string, i: nat, j: nat): (r: string)
    requires i <= |s| && j <= |s|
  {
    if i <= j then s[i..j] else []
  }

  /** The text `safe_parse_json` hands to `json.loads`: the stripped reply,
      cut down to the stretch from its first `{` to its last `}` when it
      holds both. */
  function Candidate(text: string): string {
    var t := Strip(text);
    var start := Find(t, '{');
    var end := RFind(t, '}');
    if start != -1 && end != -1 then PySlice(t, start, end + 1) else t
  }

  /** `safe_parse_json`: decoding failures are caught and become `None`. */
  function SafeParseJson(text: string, decode: Decoder): Option<Json> {
    decode(Candidate(text))
  }

  /** With a first `{` at `i` and a last `}` at `j > i` in the stripped
      reply, the decoder receives exactly the stretch from `i` to `j`, which
      starts with `{` and ends with `}`. */
  lemma CandidateBetweenBraces(text: string, i: nat, j: nat)
    requires i < j < |Strip(text)|
    requires Strip(text)[i] == '{' && '{' !in Strip(text)[..i]
    requires Strip(text)[j] == '}' && '}' !in Strip(text)[j + 1..]
    ensures Candidate(text) == Strip(text)[i..j + 1]
    ensures Candidate(text)[0] == '{' && Candidate(text)[|Candidate(text)| - 1] == '}'
  {
    var t := Strip(text);
    FindIsFirst(t, '{', i);
    RFindIsLast(t, '}', j);
    assert Candidate(text) == PySlice(t, i, j + 1) == t[i..j + 1];
  }

  /** A reply without any `{`, or without any `}`, reaches the decoder
      stripped and otherwise unchanged. */
  lemma CandidateWithoutBraces(text: string)
    requires '{' !in text || '}' !in text
    ensures Candidate(text) == Strip(text)
  {
    StripKeepsNonSpace(text, '{');
    StripKeepsNonSpace(text, '}');
    FindSpec(Strip(text), '{');
    RFindSpec(Strip(text), '}');
  }

  /** When the last `}` comes before the first `{`, the slice is empty, the
      decoder rejects it, and `safe_parse_json` returns `None`. */
  lemma ReversedBracesGiveNone(text: string, decode: Decoder, i: nat, j: nat)
    requires RejectsEmpty(decode)
    requires j < i < |Strip(text)|
    requires Strip(text)[i] == '{' && '{' !in Strip(text)[..i]
    requires Strip(text)[j] == '}' && '}' !in Strip(text)[j + 1..]
    ensures Candidate(text) == []
    ensures SafeParseJson(text, decode) == None
  {
    FindIsFirst(Strip(text), '{', i);
    RFindIsLast(Strip(text), '}', j);
  }

  /** `allowed_file`: the name has a `.`, and the text after its last `.`,
      lower-cased, is one of the allowed extensions. */
  function AllowedFile(filename: string, allowed: set<string>): bool {
    '.' in filename && Lower(filename[RFind(filename, '.') + 1..]) in allowed
  }

  /** `i` is the position of the last `.` of `filename`. */
  predicate LastDotAt(filename: string, i: int) {
    0 <= i < |filename| && filename[i] == '.' && '.' !in filename[i + 1..]
  }

  /** `allowed_file` holds exactly when the name has a last `.` and the
      lower-cased rest of the name after it is an allowed extension. */
  lemma AllowedFileIff(filename: string, allowed: set<string>)
    ensures AllowedFile(filename, allowed) <==>
      exists i :: LastDotAt(filename, i) && Lower(filename[i + 1..]) in allowed
  {
    if exists i :: LastDotAt(filename, i) && Lower(filename[i + 1..]) in allowed {
      var i :| LastDotAt(filename, i) && Lower(filename[i + 1..]) in allowed;
      RFindIsLast(filename, '.', i);
    }
    if AllowedFile(filename, allowed) {
      RFindSpec(filename, '.');
      assert LastDotAt(filename, RFind(filename, '.'));
    }
  }

  /** The reply of the generative model: its text, or an exception raised by
      the call or by reading the reply's text. */
  datatype Reply = Answer(text: string) | CallFailed

  /** What `evaluate_resume` parsed before the fallback check. */
  function Parsed(reply: Reply, decode: Decoder): Option<Json> {
    match reply
    case Answer(text) => SafeParseJson(text, decode)
    case CallFailed => None
  }

  const FallbackSummary: string := "\U{26A0} Could not parse AI response or API error occurred."

  /** The fixed result of a failed evaluation. */
  const Fallback: Json := JObject(map[
    "overall_score" := JNumber(0),
    "sub_scores" := JObject(map[]),
    "summary" := JString(FallbackSummary),
    "skills" := JObject(map[
      "matched" := JArray([]),
      "missing" := JArray([]),
      "recommended_improvements" := JArray([])])])

  /** `evaluate_resume`: the parsed reply when it is truthy, the fallback
      otherwise. Either way the result is truthy. The result is not checked
      to be a dict: any truthy document passes through. */
  function EvaluateResume(reply: Reply, decode: Decoder): (r: Json)
    ensures Truthy(r)
    ensures Parsed(reply, decode).Some? && Truthy(Parsed(reply, decode).value) ==> r == Parsed(reply, decode).value
    ensures Parsed(reply, decode).None? || !Truthy(Parsed(reply, decode).value) ==> r == Fallback
  {
    var parsed := Parsed(reply, decode);
    assert "overall_score" in Fallback.fields;
    if parsed.None? || !Truthy(parsed.value) then Fallback else parsed.value
  }

  /** A reply that is a non-empty JSON array, which holds no brace, passes
      the engine unchanged: the engine does not enforce the result's shape. */
  lemma ArrayReplyPassesThrough(decode: Decoder)
    requires decode("[1]") == Some(JArray([JNumber(1)]))
    ensures EvaluateResume(Answer("[1]"), decode) == JArray([JNumber(1)])
  {
    assert !IsSpace('[') && !IsSpace(']');
    assert StripStart("[1]") == 0;
    assert StripEnd("[1]", 0) == 3;
    assert "[1]"[0..3] == "[1]";
    assert Strip("[1]") == "[1]";
    CandidateWithoutBraces("[1]");
  }
}
