/** The content of the PDF report of app.py's `generate_pdf_report`: the
    title, the filename and overall score, the five-row score table and the
    summary, each read from the stored result with its default. */
module Report {
  import opened Py
  import opened Json

  /** The parts of the report, in the order the document holds them. */
  datatype Element =
    | Title(text: string)
    | Info(filename: Json, overallScore: Json)
    | ScoreTable(rows: seq<seq<Json>>)
    | Summary(summary: Json)

  const ReportTitle: string := "Resume Evaluation Report"
  const Missing: Json := JString("N/A")
  const NoSummary: Json := JString("No summary available.")

  /** The criteria of the table: the row label and the `sub_scores` key. */
  const Criteria: seq<(string, string)> := [
    ("Skills", "skills"),
    ("Experience", "experience"),
    ("Education", "education"),
    ("Domain Knowledge", "domain_knowledge")]

  const Header: seq<Json> := [JString("Criteria"), JString("Score (/10)")]

  /** `result.get("sub_scores", {})`, which later has `.get` called on it:
      a value that is not a dict raises `AttributeError` there. */
  function SubScores(result: map<string, Json>): Result<map<string, Json>> {
    var sub := Get(result, "sub_scores", JObject(map[]));
    if sub.JObject? then Ok(sub.fields) else Err(AttributeError)
  }

  /** The `data` rows of the score table. */
  function TableRows(sub: map<string, Json>): (rows: seq<seq<Json>>)
    ensures |rows| == 1 + |Criteria| && rows[0] == Header
    ensures forall i :: 0 <= i < |Criteria| ==>
      rows[i + 1] == [JString(Criteria[i].0), Get(sub, Criteria[i].1, Missing)]
  {
    [Header] + seq(|Criteria|, i requires 0 <= i < |Criteria| =>
      [JString(Criteria[i].0), Get(sub, Criteria[i].1, Missing)])
  }

  /** The table is the header followed by Skills, Experience, Education and
      Domain Knowledge, each scored with its sub-score, or "N/A" when the
      sub-score is absent. */
  lemma TableShape(sub: map<string, Json>)
    ensures var rows := TableRows(sub);
      |rows| == 5 && rows[0] == [JString("Criteria"), JString("Score (/10)")]
      && rows[1][0] == JString("Skills") && rows[2][0] == JString("Experience")
      && rows[3][0] == JString("Education") && rows[4][0] == JString("Domain Knowledge")
      && (forall i :: 1 <= i < 5 ==> |rows[i]| == 2)
      && (forall i :: 1 <= i < 5 && Criteria[i - 1].1 in sub ==> rows[i][1] == sub[Criteria[i - 1].1])
      && (forall i :: 1 <= i < 5 && Criteria[i - 1].1 !in sub ==> rows[i][1] == Missing)
  {
    var rows := TableRows(sub);
    forall i | 1 <= i < 5 ensures rows[i] == [JString(Criteria[i - 1].0), Get(sub, Criteria[i - 1].1, Missing)] {
    }
  }

  /** The elements of the report built from a decoded result. A result that
      is not a dict, or whose `sub_scores` is not a dict, raises
      `AttributeError`. */
  function ReportElements(result: Json): (r: Result<seq<Element>>)
    ensures r.Ok? <==> result.JObject? && SubScores(result.fields).Ok?
    ensures r.Err? ==> r.error == AttributeError
    ensures r.Ok? ==> (|r.value| == 4 && r.value[0] == Title(ReportTitle)
      && r.value[1] == Info(Get(result.fields, "filename", Missing), Get(result.fields, "overall_score", Missing))
      && r.value[2] == ScoreTable(TableRows(SubScores(result.fields).value))
      && r.value[3] == Summary(Get(result.fields, "summary", NoSummary)))
  {
    if !result.JObject? then Err(AttributeError)
    else
      match SubScores(result.fields)
      case Err(e) => Err(e)
      case Ok(sub) =>
        Ok([Title(ReportTitle),
            Info(Get(result.fields, "filename", Missing), Get(result.fields, "overall_score", Missing)),
            ScoreTable(TableRows(sub)),
            Summary(Get(result.fields, "summary", NoSummary))])
  }

  /** `generate_pdf_report`, growing the element list part by part. */
  method GeneratePdfReport(result: Json) returns (r: Result<seq<Element>>)
    ensures r == ReportElements(result)
  {
    var elements: seq<Element> := [];
    elements := elements + [Title(ReportTitle)];
    if !result.JObject? {
      return Err(AttributeError);
    }
    var info := Info(Get(result.fields, "filename", Missing), Get(result.fields, "overall_score", Missing));
    elements := elements + [info];
    var sub := SubScores(result.fields);
    if sub.Err? {
      return Err(sub.error);
    }
    elements := elements + [ScoreTable(TableRows(sub.value))];
    elements := elements + [Summary(Get(result.fields, "summary", NoSummary))];
    assert elements == [Title(ReportTitle), info, ScoreTable(TableRows(sub.value)),
      Summary(Get(result.fields, "summary", NoSummary))];
    r := Ok(elements);
  }

  /** A result with score 8, a skills sub-score of 9 and a summary: the
      overall score is 8 and the three other criteria read "N/A". */
  lemma PartialResultReport()
    ensures var result := JObject(map[
        "overall_score" := JNumber(8),
        "sub_scores" := JObject(map["skills" := JNumber(9)]),
        "summary" := JString("Strong fit")]);
      ReportElements(result) == Ok([
        Title(ReportTitle),
        Info(Missing, JNumber(8)),
        ScoreTable([Header,
          [JString("Skills"), JNumber(9)],
          [JString("Experience"), Missing],
          [JString("Education"), Missing],
          [JString("Domain Knowledge"), Missing]]),
        Summary(JString("Strong fit"))])
  {
    var result := map[
        "overall_score" := JNumber(8),
        "sub_scores" := JObject(map["skills" := JNumber(9)]),
        "summary" := JString("Strong fit")];
    var sub := map["skills" := JNumber(9)];
    assert SubScores(result) == Ok(sub);
    assert "filename" !in result;
    var rows := TableRows(sub);
    assert rows[1] == [JString("Skills"), JNumber(9)];
    assert rows[2] == [JString("Experience"), Missing];
    assert rows[3] == [JString("Education"), Missing];
    assert rows[4] == [JString("Domain Knowledge"), Missing];
    assert rows == [Header, rows[1], rows[2], rows[3], rows[4]];
  }
}
