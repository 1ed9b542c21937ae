/** The `evaluations` table of app.py (app.py:52-60) as an in-memory table:
    append-only rows with `AUTOINCREMENT` ids, tagged with the owning user. */
module AppStore {
  import opened Py
  import opened Rows
  import opened Ranking

  /** A row `(id, user_id, filename, jd, result_json, date)`; `date` is the
      `CURRENT_TIMESTAMP` of the insert, in seconds. */
  datatype EvaluationRow = EvaluationRow(
    id: int, userId: int, filename: string, jd: string, resultJson: string, date: int)

  /** The columns `fetch_all` selects: `id, filename, date, result_json`. */
  datatype FetchedRow = FetchedRow(id: int, filename: string, date: int, resultJson: string)

  function RowId(r: EvaluationRow): int { r.id }

  function FetchedDate(r: FetchedRow): int { r.date }

  function Fetch(r: EvaluationRow): FetchedRow {
    FetchedRow(r.id, r.filename, r.date, r.resultJson)
  }

  /** `WHERE user_id=?` */
  function OfUser(userId: int): EvaluationRow -> bool {
    (r: EvaluationRow) => r.userId == userId
  }

  /** `WHERE user_id=? AND filename=?` */
  function OfUserFile(userId: int, filename: string): EvaluationRow -> bool {
    (r: EvaluationRow) => r.userId == userId && r.filename == filename
  }

  /** `row` holds the given columns. */
  predicate SavedAs(row: EvaluationRow, userId: int, filename: string, jd: string, resultJson: string, date: int) {
    row.userId == userId && row.filename == filename && row.jd == jd
    && row.resultJson == resultJson && row.date == date
  }

  class EvaluationTable {
    var rows: seq<EvaluationRow>
    var nextId: int

    /** Ids grow along the table and every id is below the next one handed out. */
    ghost predicate Valid()
      reads this
    {
      1 <= nextId && IncreasingIds(rows, RowId)
      && forall i :: 0 <= i < |rows| ==> rows[i].id < nextId
    }

    constructor ()
      ensures Valid() && rows == []
    {
      rows := [];
      nextId := 1;
    }

    /** `save_evaluation`: append exactly one row, with an id above every
        existing one; earlier rows are untouched. */
    method Save(userId: int, filename: string, jd: string, resultJson: string, now: int)
      requires Valid()
      modifies this
      ensures Valid()
      ensures |rows| == |old(rows)| + 1 && rows[..|old(rows)|] == old(rows)
      ensures rows[|old(rows)|] == EvaluationRow(old(nextId), userId, filename, jd, resultJson, now)
      ensures forall i :: 0 <= i < |old(rows)| ==> rows[i].id < rows[|old(rows)|].id
      ensures LatestResult(userId, filename) == Some(resultJson)
      ensures forall u, f :: (u, f) != (userId, filename) ==> LatestResult(u, f) == old(LatestResult(u, f))
    {
      var row := EvaluationRow(nextId, userId, filename, jd, resultJson, now);
      ghost var before := rows;
      rows := rows + [row];
      nextId := nextId + 1;
      LastWhereAppend(before, row, OfUserFile(userId, filename));
      forall u, f | (u, f) != (userId, filename)
        ensures LastWhere(rows, OfUserFile(u, f)) == LastWhere(before, OfUserFile(u, f))
      {
        LastWhereAppend(before, row, OfUserFile(u, f));
      }
    }

    /** `fetch_all(user_id)`: every row of the user, newest first by `date`.
        Rows with equal dates may come in any order; this model keeps them
        in table order. */
    function FetchAll(userId: int): (r: seq<FetchedRow>)
      reads this
      ensures multiset(r) == multiset(Select(Where(rows, OfUser(userId)), Fetch))
      ensures NonIncreasing(r, FetchedDate)
    {
      var mine := Select(Where(rows, OfUser(userId)), Fetch);
      SortDescPermutation(mine, FetchedDate);
      SortDescSorted(mine, FetchedDate);
      SortDesc(mine, FetchedDate)
    }

    /** The `download` query: `result_json` of the user's row for that
        filename with the highest id, or `None` when there is none. */
    function LatestResult(userId: int, filename: string): (r: Option<string>)
      reads this
      requires Valid()
      ensures r.None? <==> forall i :: 0 <= i < |rows| ==> !OfUserFile(userId, filename)(rows[i])
      ensures r.Some? ==> exists k :: (0 <= k < |rows| && OfUserFile(userId, filename)(rows[k])
        && rows[k].resultJson == r.value
        && forall i :: 0 <= i < |rows| && OfUserFile(userId, filename)(rows[i]) ==> rows[i].id <= rows[k].id)
    {
      var k := LastWhere(rows, OfUserFile(userId, filename));
      if k == -1 then None
      else
        LastWhereHasHighestId(rows, OfUserFile(userId, filename), RowId);
        Some(rows[k].resultJson)
    }
  }
}
