/** The upload route `index` of app.py: each allowed upload is evaluated,
    tagged with its filename and saved, then the batch is ranked by overall
    score and the top score is reported. */
module Batch {
  import opened Py
  import opened Json
  import opened Text
  import opened Rows
  import opened Ranking
  import opened Engine
  import opened AppStore

  /** One uploaded file: its client-side name and what the model replied
      for its text. */
  datatype Upload = Upload(filename: string, reply: Reply)

  /** The collaborators of the route: `ALLOWED_EXTENSIONS`,
      `secure_filename`, `json.loads` and `json.dumps`. */
  datatype Context = Context(allowed: set<string>, secure: string -> string, decode: Decoder, encode: Encoder)

  /** `analysis["filename"] = filename`: only a dict supports it. */
  function WithFilename(analysis: Json, filename: string): (r: Result<Json>)
    ensures r.Ok? <==> analysis.JObject?
    ensures r.Err? ==> r.error == TypeError
    ensures r.Ok? ==> (r.value.JObject? && Get(r.value.fields, "filename", JNull) == JString(filename)
      && r.value.fields.Keys == analysis.fields.Keys + {"filename"}
      && forall key :: key in analysis.fields && key != "filename" ==>
           key in r.value.fields && r.value.fields[key] == analysis.fields[key])
  {
    if analysis.JObject? then Ok(JObject(analysis.fields["filename" := JString(filename)]))
    else Err(TypeError)
  }

  /** The result the loop collects for one allowed upload. */
  function Analyse(u: Upload, ctx: Context): Result<Json> {
    WithFilename(EvaluateResume(u.reply, ctx.decode), ctx.secure(u.filename))
  }

  /** The uploads `allowed_file` lets through. */
  function IsAllowed(allowed: set<string>): Upload -> bool {
    (u: Upload) => AllowedFile(u.filename, allowed)
  }

  /** Where the loop stands: the results collected so far, and whether an
      upload raised. */
  datatype Progress = Progress(results: seq<Json>, crashed: bool)

  /** The loop of `index` over `items`, for an acceptance test and an
      analysis that may raise: accepted items are analysed in order, and the
      first analysis that raises ends the loop. */
  function Collect<U>(items: seq<U>, accept: U -> bool, analyse: U -> Result<Json>): Progress
    decreases |items|
  {
    if items == [] then Progress([], false)
    else
      var p := Collect(items[..|items| - 1], accept, analyse);
      var u := items[|items| - 1];
      if p.crashed || !accept(u) then p
      else
        match analyse(u)
        case Err(_) => Progress(p.results, true)
        case Ok(j) => Progress(p.results + [j], false)
  }

  /** One more iteration of the loop, on `items[i]`. */
  lemma CollectStep<U>(items: seq<U>, i: nat, accept: U -> bool, analyse: U -> Result<Json>)
    requires i < |items| && !Collect(items[..i], accept, analyse).crashed
    ensures var p := Collect(items[..i], accept, analyse);
      Collect(items[..i + 1], accept, analyse) ==
        if !accept(items[i]) then p
        else match analyse(items[i])
             case Err(_) => Progress(p.results, true)
             case Ok(j) => Progress(p.results + [j], false)
  {
    assert items[..i + 1][..i] == items[..i];
  }

  /** A loop that has raised stays raised whatever follows. */
  lemma {:induction false} CrashPersists<U>(items: seq<U>, n: nat, accept: U -> bool, analyse: U -> Result<Json>)
    requires n <= |items| && Collect(items[..n], accept, analyse).crashed
    ensures Collect(items, accept, analyse) == Collect(items[..n], accept, analyse)
    decreases |items| - n
  {
    if n < |items| {
      assert items[..n + 1][..n] == items[..n];
      CrashPersists(items, n + 1, accept, analyse);
    } else {
      assert items[..n] == items;
    }
  }

  /** Without a failing analysis, the loop yields exactly one result per
      accepted item, in order, and nothing for the others. */
  lemma {:induction false} OneResultPerAccepted<U>(items: seq<U>, accept: U -> bool, analyse: U -> Result<Json>)
    requires forall i :: 0 <= i < |items| && accept(items[i]) ==> analyse(items[i]).Ok?
    ensures !Collect(items, accept, analyse).crashed
    ensures |Collect(items, accept, analyse).results| == |Where(items, accept)|
    ensures forall k :: 0 <= k < |Where(items, accept)| ==>
      analyse(Where(items, accept)[k]) == Ok(Collect(items, accept, analyse).results[k])
    decreases |items|
  {
    if items != [] {
      var init := items[..|items| - 1];
      var u := items[|items| - 1];
      assert items == init + [u];
      OneResultPerAccepted(init, accept, analyse);
      WhereAppend(init, [u], accept);
      if accept(u) {
        assert Where([u], accept) == [u];
      } else {
        assert Where([u], accept) == [];
      }
    }
  }

  /** The loop raises exactly when some accepted item's analysis raises. */
  lemma {:induction false} CrashesIff<U>(items: seq<U>, accept: U -> bool, analyse: U -> Result<Json>)
    ensures Collect(items, accept, analyse).crashed <==>
      exists i :: 0 <= i < |items| && accept(items[i]) && analyse(items[i]).Err?
    decreases |items|
  {
    if items != [] {
      var init := items[..|items| - 1];
      CrashesIff(init, accept, analyse);
      assert forall i :: 0 <= i < |init| ==> init[i] == items[i];
    }
  }

  /** The loop of `index` on the uploads of one request. */
  function Run(uploads: seq<Upload>, ctx: Context): Progress {
    Collect(uploads, IsAllowed(ctx.allowed), AnalyserOf(ctx))
  }

  function AnalyserOf(ctx: Context): Upload -> Result<Json> {
    (u: Upload) => Analyse(u, ctx)
  }

  /** The sort key `r.get("overall_score", 0)`. */
  function Score(r: Json): Json {
    if r.JObject? then Get(r.fields, "overall_score", JNumber(0)) else JNull
  }

  /** Scores that compare as numbers: ints, and bools, which Python treats as 0 and 1. */
  predicate Orderable(score: Json) {
    score.JNumber? || score.JBool?
  }

  /** The numeric value of an orderable score. */
  function RankKey(r: Json): int {
    match Score(r)
    case JNumber(n) => n
    case JBool(b) => if b then 1 else 0
    case _ => 0
  }

  /** `results.sort(key=..., reverse=True)`: a stable sort by descending
      score. Sorting two or more results raises `TypeError` when a score is
      not a number. */
  function Rank(results: seq<Json>): (r: Result<seq<Json>>)
    ensures r.Err? <==> |results| >= 2 && exists i :: 0 <= i < |results| && !Orderable(Score(results[i]))
    ensures r.Err? ==> r.error == TypeError
    ensures r.Ok? ==> multiset(r.value) == multiset(results)
    ensures r.Ok? ==> NonIncreasing(r.value, RankKey)
    ensures r.Ok? ==> forall k :: Where(r.value, KeyIs(RankKey, k)) == Where(results, KeyIs(RankKey, k))
  {
    if |results| >= 2 && exists i :: 0 <= i < |results| && !Orderable(Score(results[i])) then Err(TypeError)
    else
      SortDescPermutation(results, RankKey);
      SortDescSorted(results, RankKey);
      forall k ensures Where(SortDesc(results, RankKey), KeyIs(RankKey, k)) == Where(results, KeyIs(RankKey, k)) {
        SortDescStable(results, RankKey, k);
      }
      Ok(SortDesc(results, RankKey))
  }

  /** `top_score` as app.py:230 writes it: `results[0]["overall_score"]`,
      which raises `KeyError` when the top result has no score. */
  function TopScoreAsWritten(ranked: seq<Json>): Result<Json> {
    if ranked == [] then Ok(JNumber(0))
    else if ranked[0].JObject? && "overall_score" in ranked[0].fields then Ok(ranked[0].fields["overall_score"])
    else Err(KeyError)
  }

  /** A single result without `overall_score` ranks without error (its key
      counts as 0), yet reading the top score raises. */
  lemma TopScoreRaisesOnMissingScore()
    ensures var results := [JObject(map["summary" := JString("x")])];
      Rank(results) == Ok(results) && TopScoreAsWritten(results) == Err(KeyError)
  {
    var results := [JObject(map["summary" := JString("x")])];
    assert SortDesc(results, RankKey) == Insert(results[0], [], RankKey) == results;
  }

  /** `top_score` with the same default the sort key uses: the score of the
      first ranked result, 0 when it has none or the batch is empty. */
  function TopScore(ranked: seq<Json>): Json {
    if ranked == [] then JNumber(0) else Score(ranked[0])
  }

  /** After ranking, the top score is 0 for an empty batch, and otherwise
      the score of a result whose key is the largest in the batch. */
  lemma {:induction false} TopScoreIsHighest(results: seq<Json>)
    requires Rank(results).Ok?
    ensures results == [] ==> TopScore(Rank(results).value) == JNumber(0)
    ensures results != [] ==> exists t :: (t in results && TopScore(Rank(results).value) == Score(t)
      && forall x :: x in results ==> RankKey(x) <= RankKey(t))
  {
    var ranked := Rank(results).value;
    if results == [] {
      assert ranked == [];
    } else {
      assert |ranked| == |results| by {
        assert |multiset(ranked)| == |multiset(results)|;
      }
      var t := ranked[0];
      assert t in multiset(results);
      forall x | x in results ensures RankKey(x) <= RankKey(t) {
        assert x in multiset(ranked);
        var i :| 0 <= i < |ranked| && ranked[i] == x;
        assert i == 0 || RankKey(ranked[0]) >= RankKey(ranked[i]);
      }
    }
  }

  /** What `index` renders. */
  datatype Response =
    | MissingInput                                 // no job description or no uploads
    | Ranked(results: seq<Json>, topScore: Json)   // results.html
    | Crashed(error: PyError)                      // the request raised

  /** The rows `table` gained: one per collected result, in collection
      order, each holding the user, the secured filename, the job
      description, the serialised result and the time of the request. */
  ghost predicate Appended(before: seq<EvaluationRow>, after: seq<EvaluationRow>, userId: int, jd: string,
                           results: seq<Json>, encode: Encoder, now: int)
  {
    |after| == |before| + |results| && after[..|before|] == before
    && forall k :: 0 <= k < |results| ==>
         results[k].JObject?
         && SavedAs(after[|before| + k], userId, after[|before| + k].filename, jd, encode(results[k]), now)
         && Get(results[k].fields, "filename", JNull) == JString(after[|before| + k].filename)
  }

  /** Saving one more result extends what the table gained. */
  lemma AppendedStep(before: seq<EvaluationRow>, after: seq<EvaluationRow>, after': seq<EvaluationRow>,
                     userId: int, jd: string, results: seq<Json>, j: Json, filename: string,
                     encode: Encoder, now: int)
    requires Appended(before, after, userId, jd, results, encode, now)
    requires j.JObject? && Get(j.fields, "filename", JNull) == JString(filename)
    requires |after'| == |after| + 1 && after'[..|after|] == after
    requires SavedAs(after'[|after|], userId, filename, jd, encode(j), now)
    ensures Appended(before, after', userId, jd, results + [j], encode, now)
  {
    assert after'[..|before|] == after[..|before|];
  }

  /** The loop of `index`: every allowed upload is evaluated, tagged with
      its secured filename and saved before the next one is read. An upload
      whose analysis is not a dict raises, leaving the rows saved so far. */
  method SaveUploads(table: EvaluationTable, userId: int, jd: string, uploads: seq<Upload>, ctx: Context, now: int)
    returns (results: seq<Json>, crashed: bool)
    requires table.Valid()
    modifies table
    ensures table.Valid()
    ensures Run(uploads, ctx) == Progress(results, crashed)
    ensures Appended(old(table.rows), table.rows, userId, jd, results, ctx.encode, now)
  {
    results, crashed := [], false;
    var i := 0;
    while i < |uploads|
      invariant 0 <= i <= |uploads|
      invariant table.Valid()
      invariant Run(uploads[..i], ctx) == Progress(results, false)
      invariant Appended(old(table.rows), table.rows, userId, jd, results, ctx.encode, now)
    {
      var u := uploads[i];
      CollectStep(uploads, i, IsAllowed(ctx.allowed), AnalyserOf(ctx));
      if AllowedFile(u.filename, ctx.allowed) {
        var filename := ctx.secure(u.filename);
        var analysis := EvaluateResume(u.reply, ctx.decode);
        var tagged := WithFilename(analysis, filename);
        assert AnalyserOf(ctx)(u) == tagged;
        assert IsAllowed(ctx.allowed)(u);
        if tagged.Err? {
          CrashPersists(uploads, i + 1, IsAllowed(ctx.allowed), AnalyserOf(ctx));
          crashed := true;
          return;
        }
        ghost var rowsBefore := table.rows;
        table.Save(userId, filename, jd, ctx.encode(tagged.value), now);
        AppendedStep(old(table.rows), rowsBefore, table.rows, userId, jd, results, tagged.value,
                     filename, ctx.encode, now);
        results := results + [tagged.value];
      }
      i := i + 1;
    }
    assert uploads[..i] == uploads;
  }

  /** The `POST` branch of `index`. Rows are saved as the loop goes, so an
      upload that raises leaves the rows of the uploads before it. */
  method Index(table: EvaluationTable, userId: int, jdField: string, uploads: seq<Upload>, ctx: Context, now: int)
    returns (resp: Response)
    requires table.Valid()
    modifies table
    ensures table.Valid()
    ensures Strip(jdField) == [] || uploads == [] ==> resp == MissingInput && table.rows == old(table.rows)
    ensures Strip(jdField) != [] && uploads != [] ==>
      var p := Run(uploads, ctx);
      Appended(old(table.rows), table.rows, userId, Strip(jdField), p.results, ctx.encode, now)
      && (p.crashed ==> resp == Crashed(TypeError))
      && (!p.crashed ==> resp == match Rank(p.results)
                                 case Err(e) => Crashed(e)
                                 case Ok(ranked) => Ranked(ranked, TopScore(ranked)))
  {
    var jd := Strip(jdField);
    if jd == [] || uploads == [] {
      return MissingInput;
    }
    var results, crashed := SaveUploads(table, userId, jd, uploads, ctx, now);
    if crashed {
      return Crashed(TypeError);
    }
    var ranked := Rank(results);
    if ranked.Err? {
      return Crashed(ranked.error);
    }
    resp := Ranked(ranked.value, TopScore(ranked.value));
  }
}
