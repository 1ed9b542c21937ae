/** db.py: the `evaluations` table (without owners) and the `users` table
    with hashed passwords, as in-memory tables with `AUTOINCREMENT` ids. */
module Db {
  import opened Py
  import opened Rows
  import opened Ranking

  /** A row of db.py's `evaluations`: `(id, filename, jd, result_json, date)`. */
  datatype Evaluation = Evaluation(id: int, filename: string, jd: string, resultJson: string, date: int)

  /** The columns `fetch_all` selects: `id, filename, date, result_json`. */
  datatype FetchedRow = FetchedRow(id: int, filename: string, date: int, resultJson: string)

  function FetchedDate(r: FetchedRow): int { r.date }

  /** A row of `users`; `fullname` and `email` may be `NULL`. */
  datatype UserRow = UserRow(
    id: int, username: string, passwordHash: string,
    fullname: Option<string>, email: Option<string>, createdAt: int)

  /** The tuple the user lookups return: every column but `created_at`. */
  datatype UserRecord = UserRecord(
    id: int, username: string, passwordHash: string, fullname: Option<string>, email: Option<string>)

  /** Werkzeug's `generate_password_hash(password)`, with its random salt made
      an argument, and `check_password_hash(stored, password)`. */
  datatype Hasher = Hasher(hash: (string, string) -> string, check: (string, string) -> bool)

  /** A hash made from a password checks against that password. */
  ghost predicate Sound(h: Hasher) {
    forall password, salt :: h.check(h.hash(password, salt), password)
  }

  function EvaluationId(e: Evaluation): int { e.id }

  function UserId(u: UserRow): int { u.id }

  function Fetch(e: Evaluation): FetchedRow {
    FetchedRow(e.id, e.filename, e.date, e.resultJson)
  }

  function Record(u: UserRow): UserRecord {
    UserRecord(u.id, u.username, u.passwordHash, u.fullname, u.email)
  }

  /** `WHERE filename = ?` */
  function HasFilename(filename: string): Evaluation -> bool {
    (e: Evaluation) => e.filename == filename
  }

  /** `WHERE id = ?` */
  function HasId(id: int): UserRow -> bool {
    (u: UserRow) => u.id == id
  }

  /** `WHERE username = ?` */
  function HasUsername(username: string): UserRow -> bool {
    (u: UserRow) => u.username == username
  }

  /** The `UNIQUE` constraint on `username`. */
  ghost predicate UniqueUsernames(users: seq<UserRow>) {
    forall i, j :: 0 <= i < j < |users| ==> users[i].username != users[j].username
  }

  class Database {
    var evaluations: seq<Evaluation>
    var nextEvaluationId: int
    var users: seq<UserRow>
    var nextUserId: int

    /** Both tables hand out growing ids below their next id, and no two
        users share a username. */
    ghost predicate Valid()
      reads this
    {
      1 <= nextEvaluationId && IncreasingIds(evaluations, EvaluationId)
      && (forall i :: 0 <= i < |evaluations| ==> evaluations[i].id < nextEvaluationId)
      && 1 <= nextUserId && IncreasingIds(users, UserId)
      && (forall i :: 0 <= i < |users| ==> users[i].id < nextUserId)
      && UniqueUsernames(users)
    }

    /** `init_db` on a fresh database file. */
    constructor ()
      ensures Valid() && evaluations == [] && users == []
    {
      evaluations := [];
      nextEvaluationId := 1;
      users := [];
      nextUserId := 1;
    }

    /** `save_evaluation`: append one row with the next id; the users table
        is untouched. */
    method SaveEvaluation(filename: string, jd: string, resultJson: string, now: int)
      requires Valid()
      modifies this
      ensures Valid()
      ensures evaluations == old(evaluations) + [Evaluation(old(nextEvaluationId), filename, jd, resultJson, now)]
      ensures users == old(users) && nextUserId == old(nextUserId)
      ensures FetchLatestByFilename(filename) == Some(resultJson)
      ensures forall other :: other != filename ==>
        FetchLatestByFilename(other) == old(FetchLatestByFilename(other))
    {
      var row := Evaluation(nextEvaluationId, filename, jd, resultJson, now);
      ghost var before := evaluations;
      evaluations := evaluations + [row];
      nextEvaluationId := nextEvaluationId + 1;
      LastWhereAppend(before, row, HasFilename(filename));
      forall other | other != filename
        ensures LastWhere(evaluations, HasFilename(other)) == LastWhere(before, HasFilename(other))
      {
        LastWhereAppend(before, row, HasFilename(other));
      }
    }

    /** `fetch_all`: every evaluation, newest first by `date`; rows with equal
        dates may come in any order and this model keeps them in table order. */
    function FetchAll(): (r: seq<FetchedRow>)
      reads this
      ensures multiset(r) == multiset(Select(evaluations, Fetch))
      ensures NonIncreasing(r, FetchedDate)
    {
      var all := Select(evaluations, Fetch);
      SortDescPermutation(all, FetchedDate);
      SortDescSorted(all, FetchedDate);
      SortDesc(all, FetchedDate)
    }

    /** `fetch_latest_by_filename`: `result_json` of the row with that filename
        and the highest id, or `None`. */
    function FetchLatestByFilename(filename: string): (r: Option<string>)
      reads this
      requires Valid()
      ensures r.None? <==> forall i :: 0 <= i < |evaluations| ==> evaluations[i].filename != filename
      ensures r.Some? ==> exists k :: (0 <= k < |evaluations| && evaluations[k].filename == filename
        && evaluations[k].resultJson == r.value
        && forall i :: 0 <= i < |evaluations| && evaluations[i].filename == filename ==>
             evaluations[i].id <= evaluations[k].id)
    {
      var k := LastWhere(evaluations, HasFilename(filename));
      if k == -1 then None
      else
        LastWhereHasHighestId(evaluations, HasFilename(filename), EvaluationId);
        Some(evaluations[k].resultJson)
    }

    /** `find_user_by_id`: the user with that id, or `None`. */
    function FindUserById(id: int): (r: Option<UserRecord>)
      reads this
      requires Valid()
      ensures r.None? <==> forall i :: 0 <= i < |users| ==> users[i].id != id
      ensures r.Some? ==> forall i :: 0 <= i < |users| && users[i].id == id ==> Record(users[i]) == r.value
      ensures r.Some? ==> r.value.id == id
    {
      var k := LastWhere(users, HasId(id));
      if k == -1 then None else Some(Record(users[k]))
    }

    /** `find_user_by_username`: the user with that username, or `None`. */
    function FindUserByUsername(username: string): (r: Option<UserRecord>)
      reads this
      requires Valid()
      ensures r.None? <==> forall i :: 0 <= i < |users| ==> users[i].username != username
      ensures r.Some? ==> forall i :: 0 <= i < |users| && users[i].username == username ==> Record(users[i]) == r.value
      ensures r.Some? ==> r.value.username == username
    {
      var k := LastWhere(users, HasUsername(username));
      if k == -1 then None else Some(Record(users[k]))
    }

    /** `verify_user_password`: the user exists and the password checks
        against the stored hash. */
    function VerifyUserPassword(username: string, password: string, hasher: Hasher): (ok: bool)
      reads this
      requires Valid()
      ensures ok <==> exists i :: (0 <= i < |users| && users[i].username == username
        && hasher.check(users[i].passwordHash, password))
    {
      match FindUserByUsername(username)
      case None => false
      case Some(row) => hasher.check(row.passwordHash, password)
    }

    /** `create_user`: insert the user with a hash of the password, or report
        `False` when the username is taken and leave both tables as they were. */
    method CreateUser(username: string, password: string, fullname: Option<string>, email: Option<string>,
                      salt: string, now: int, hasher: Hasher)
      returns (created: bool)
      requires Valid()
      modifies this
      ensures Valid()
      ensures created <==> forall i :: 0 <= i < |old(users)| ==> old(users)[i].username != username
      ensures created ==> users == old(users) + [UserRow(old(nextUserId), username,
        hasher.hash(password, salt), fullname, email, now)]
      ensures !created ==> users == old(users) && nextUserId == old(nextUserId)
      ensures evaluations == old(evaluations) && nextEvaluationId == old(nextEvaluationId)
      ensures created && Sound(hasher) ==> VerifyUserPassword(username, password, hasher)
    {
      var passwordHash := hasher.hash(password, salt);
      if FindUserByUsername(username).Some? {
        return false;
      }
      var row := UserRow(nextUserId, username, passwordHash, fullname, email, now);
      users := users + [row];
      nextUserId := nextUserId + 1;
      created := true;
      assert users[|users| - 1] == row;
    }
  }

  /** Registering a username twice: the second `create_user` is refused. */
  method DuplicateRegistration(hasher: Hasher) returns (first: bool, second: bool)
    ensures first && !second
  {
    var db := new Database();
    first := db.CreateUser("ann", "pw1", None, None, "s1", 0, hasher);
    assert db.users[0].username == "ann";
    second := db.CreateUser("ann", "pw2", None, None, "s2", 1, hasher);
  }

  /** An example: with only `ann` registered, `bob` does not verify, whatever
      the password and the hasher. */
  method UnknownUserRejected(hasher: Hasher, password: string) returns (ok: bool)
    ensures !ok
  {
    var db := new Database();
    var _ := db.CreateUser("ann", "pw", None, None, "s", 0, hasher);
    ok := db.VerifyUserPassword("bob", password, hasher);
  }
}
