/** The read-side routes of app.py over the evaluations table: `download`
    (the latest result for a filename, as a report), `history` and
    `dashboard` (one entry per fetched row). */
module Views {
  import opened Py
  import opened Json
  import opened Report
  import opened AppStore
  import Engine
  import Batch

  /** What `download` sends back. */
  datatype DownloadResponse =
    | NotFound                                        // "Report not found.", status 404
    | Attachment(name: string, report: seq<Element>)  // `{filename}_report.pdf`
    | ServerError(error: PyError)                     // the request raised

  /** `download(filename)` for the logged-in user. */
  method Download(table: EvaluationTable, userId: int, filename: string, decode: Decoder)
    returns (resp: DownloadResponse)
    requires table.Valid()
    ensures resp == NotFound <==> table.LatestResult(userId, filename).None?
    ensures table.LatestResult(userId, filename).Some? ==>
      match decode(table.LatestResult(userId, filename).value)
      case None => resp == ServerError(DecodeError)
      case Some(result) =>
        match ReportElements(result)
        case Err(e) => resp == ServerError(e)
        case Ok(elements) => resp == Attachment(filename + "_report.pdf", elements)
  {
    var row := table.LatestResult(userId, filename);
    if row.None? {
      return NotFound;
    }
    var result := decode(row.value);
    if result.None? {
      return ServerError(DecodeError);
    }
    var report := GeneratePdfReport(result.value);
    if report.Err? {
      return ServerError(report.error);
    }
    resp := Attachment(filename + "_report.pdf", report.value);
  }

  /** The report of a failed evaluation: the filename, a score of 0, "N/A"
      in every criterion row and the fallback summary. */
  lemma FallbackReport(filename: string)
    ensures var tagged := Batch.WithFilename(Engine.Fallback, filename);
      tagged.Ok? && ReportElements(tagged.value) == Ok([
        Title(ReportTitle),
        Info(JString(filename), JNumber(0)),
        ScoreTable([Header,
          [JString("Skills"), Missing],
          [JString("Experience"), Missing],
          [JString("Education"), Missing],
          [JString("Domain Knowledge"), Missing]]),
        Summary(JString(Engine.FallbackSummary))])
  {
    var fields := Engine.Fallback.fields["filename" := JString(filename)];
    assert SubScores(fields) == Ok(map[]);
    var rows := TableRows(map[]);
    assert rows == [Header, rows[1], rows[2], rows[3], rows[4]];
  }

  /** One entry of `history`. */
  datatype HistoryEntry = HistoryEntry(filename: string, date: int, result: Json)

  /** The `history` comprehension over the fetched rows: the first row whose
      `result_json` does not decode makes the request raise. */
  function HistoryEntries(rows: seq<FetchedRow>, decode: Decoder): (r: Result<seq<HistoryEntry>>)
    ensures r.Ok? <==> forall i :: 0 <= i < |rows| ==> decode(rows[i].resultJson).Some?
    ensures r.Err? ==> r.error == DecodeError
    ensures r.Ok? ==> |r.value| == |rows| && forall i :: 0 <= i < |rows| ==>
      decode(rows[i].resultJson) == Some(r.value[i].result)
      && r.value[i].filename == rows[i].filename && r.value[i].date == rows[i].date
  {
    if rows == [] then Ok([])
    else
      match decode(rows[0].resultJson)
      case None => Err(DecodeError)
      case Some(result) =>
        match HistoryEntries(rows[1..], decode)
        case Err(e) => Err(e)
        case Ok(rest) => Ok([HistoryEntry(rows[0].filename, rows[0].date, result)] + rest)
  }

  /** `history`: the entries of the rows `fetch_all` returns for the user. */
  function History(table: EvaluationTable, userId: int, decode: Decoder): (r: Result<seq<HistoryEntry>>)
    reads table
    ensures var rows := table.FetchAll(userId);
      r.Ok? <==> forall i :: 0 <= i < |rows| ==> decode(rows[i].resultJson).Some?
    ensures var rows := table.FetchAll(userId);
      r.Ok? ==> |r.value| == |rows| && forall i :: 0 <= i < |rows| ==>
        decode(rows[i].resultJson) == Some(r.value[i].result)
        && r.value[i].filename == rows[i].filename && r.value[i].date == rows[i].date
    ensures r.Err? ==> r.error == DecodeError
  {
    HistoryEntries(table.FetchAll(userId), decode)
  }

  /** Rows whose payloads were serialised by a round-tripping encoder all
      come back, each with the value that was saved. */
  lemma HistoryRecoversSaved(rows: seq<FetchedRow>, saved: seq<Json>, encode: Encoder, decode: Decoder)
    requires RoundTrips(encode, decode)
    requires |saved| == |rows| && forall i :: 0 <= i < |rows| ==> rows[i].resultJson == encode(saved[i])
    ensures HistoryEntries(rows, decode).Ok?
    ensures forall i :: 0 <= i < |rows| ==> HistoryEntries(rows, decode).value[i].result == saved[i]
  {
    forall i | 0 <= i < |rows| ensures decode(rows[i].resultJson) == Some(saved[i]) {
      assert decode(encode(saved[i])) == Some(saved[i]);
    }
  }

  /** One entry of `dashboard`. */
  datatype DashboardEntry = DashboardEntry(
    filename: string, score: Json, skills: Json, experience: Json, education: Json, domainKnowledge: Json)

  const Zero: Json := JNumber(0)

  /** The entry `dashboard` builds for one row, every missing score
      defaulting to 0. */
  function DashboardEntryOf(row: FetchedRow, decode: Decoder): Result<DashboardEntry> {
    match decode(row.resultJson)
    case None => Err(DecodeError)
    case Some(res) =>
      if !res.JObject? then Err(AttributeError)
      else
        var sub := Get(res.fields, "sub_scores", JObject(map[]));
        if !sub.JObject? then Err(AttributeError)
        else
          Ok(DashboardEntry(row.filename, Get(res.fields, "overall_score", Zero),
            Get(sub.fields, "skills", Zero), Get(sub.fields, "experience", Zero),
            Get(sub.fields, "education", Zero), Get(sub.fields, "domain_knowledge", Zero)))
  }

  /** A row holding a failed evaluation shows 0 for the overall score and
      for every criterion. */
  lemma FallbackDashboardEntry(row: FetchedRow, decode: Decoder, filename: string)
    requires decode(row.resultJson) == Some(Batch.WithFilename(Engine.Fallback, filename).value)
    ensures DashboardEntryOf(row, decode) == Ok(DashboardEntry(row.filename, Zero, Zero, Zero, Zero, Zero))
  {
    var fields := Engine.Fallback.fields["filename" := JString(filename)];
    assert Get(fields, "sub_scores", JObject(map[])) == JObject(map[]);
  }

  /** `dashboard`: one entry per row `fetch_all` returns, in that order; the
      first row that cannot be projected makes the request raise. */
  method Dashboard(table: EvaluationTable, userId: int, decode: Decoder)
    returns (r: Result<seq<DashboardEntry>>)
    ensures var rows := table.FetchAll(userId);
      r.Ok? <==> forall i :: 0 <= i < |rows| ==> DashboardEntryOf(rows[i], decode).Ok?
    ensures var rows := table.FetchAll(userId);
      r.Ok? ==> |r.value| == |rows| && forall i :: 0 <= i < |rows| ==> Ok(r.value[i]) == DashboardEntryOf(rows[i], decode)
    ensures var rows := table.FetchAll(userId);
      r.Err? ==> exists i :: (0 <= i < |rows| && DashboardEntryOf(rows[i], decode) == Err(r.error)
        && forall k :: 0 <= k < i ==> DashboardEntryOf(rows[k], decode).Ok?)
  {
    var rows := table.FetchAll(userId);
    var data: seq<DashboardEntry> := [];
    var i := 0;
    while i < |rows|
      invariant 0 <= i <= |rows|
      invariant |data| == i
      invariant forall k :: 0 <= k < i ==> Ok(data[k]) == DashboardEntryOf(rows[k], decode)
    {
      var entry := DashboardEntryOf(rows[i], decode);
      if entry.Err? {
        return Err(entry.error);
      }
      data := data + [entry.value];
      i := i + 1;
    }
    r := Ok(data);
  }
}
