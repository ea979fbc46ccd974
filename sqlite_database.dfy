/**
 * The SQLite record store: one `todos` table keyed by `id`, reached through a
 * connection that is absent until `Initialize` and again after `Close`.
 * The SQL engine is modelled by the functions below that say what each
 * statement does to the table; the driver's own failures are inputs.
 */
module SqliteDatabase {
  import opened Wrappers
  import opened Text
  import opened Seqs
  import opened Records

  const DefaultFilepath: string := "./data/todos.db"

  /** The connection field `db`: absent (`null`), open, or the driver object
      of an open that failed (it is assigned before the driver reports). */
  datatype Handle = Closed | Open | Unopened

  /** How opening the file and creating the table turn out. */
  datatype OpenOutcome = Opened | CannotOpen | CannotCreateTable

  datatype StoreError =
    | NotInitialized
    | ConnectFailed
    | CreateTableFailed
    | FetchFailed
    | AddFailed
    | NoUpdatesProvided
    | UpdateFailed
    | FetchUpdatedFailed
    | ConnectionLost
    | DeleteFailed
    | DeleteCompletedFailed
    | CloseFailed

  /** The text each rejection carries (driver errors append the driver's own message). */
  function Message(e: StoreError): string {
    match e
    case NotInitialized => "Database not initialized"
    case ConnectFailed => "Failed to connect to SQLite database"
    case CreateTableFailed => "Failed to create todos table"
    case FetchFailed => "Failed to fetch todos"
    case AddFailed => "Failed to add todo"
    case NoUpdatesProvided => "No updates provided"
    case UpdateFailed => "Failed to update todo"
    case FetchUpdatedFailed => "Failed to fetch updated todo"
    case ConnectionLost => "Database connection lost"
    case DeleteFailed => "Failed to delete todo"
    case DeleteCompletedFailed => "Failed to delete completed todos"
    case CloseFailed => "Failed to close database"
  }

  /** `config.filepath || './data/todos.db'`: an absent or empty path falls back. */
  function FilepathOf(config: DatabaseConfig): (path: string)
    ensures path != []
    ensures config.filepath.Some? && config.filepath.value != [] ==> path == config.filepath.value
    ensures config.filepath.None? || config.filepath.value == [] ==> path == DefaultFilepath
  {
    if config.filepath.Some? && config.filepath.value != "" then config.filepath.value else DefaultFilepath
  }

  /** `config.verbose || false`. */
  function VerboseOf(config: DatabaseConfig): (verbose: bool)
    ensures verbose <==> config.verbose == Some(true)
  {
    match config.verbose
    case Some(v) => v
    case None => false
  }

  // ---------------------------------------------------------------------------
  // The table and what each statement does to it.

  /** The PRIMARY KEY on `id`: no two rows share an id. */
  predicate UniqueIds(rows: seq<DatabaseTodo>) {
    forall i, j :: 0 <= i < j < |rows| ==> rows[i].id != rows[j].id
  }

  predicate HasId(rows: seq<DatabaseTodo>, id: string) {
    exists k :: 0 <= k < |rows| && rows[k].id == id
  }

  /** `SELECT * FROM todos WHERE id = ?`: the row with that id, if any. */
  function Lookup(rows: seq<DatabaseTodo>, id: string): (r: Option<DatabaseTodo>)
    ensures r.Some? <==> HasId(rows, id)
    ensures r.Some? ==> r.value in rows && r.value.id == id
  {
    if rows == [] then None
    else if rows[0].id == id then Some(rows[0])
    else
      var r := Lookup(rows[1..], id);
      assert HasId(rows, id) ==> HasId(rows[1..], id) by {
        if HasId(rows, id) {
          var k :| 0 <= k < |rows| && rows[k].id == id;
          assert rows[1..][k - 1].id == id;
        }
      }
      r
  }

  /** Under the primary key, looking up a row's id finds that very row. */
  lemma {:induction false} LookupFindsRow(rows: seq<DatabaseTodo>, k: nat)
    requires UniqueIds(rows) && k < |rows|
    ensures Lookup(rows, rows[k].id) == Some(rows[k])
  {
    if k > 0 {
      assert rows[1..][k - 1] == rows[k];
      LookupFindsRow(rows[1..], k - 1);
    }
  }

  /** Two tables holding the same rows under the primary key answer every
      lookup alike (a listing and the table it was read from, say). */
  lemma LookupPermutation(rows: seq<DatabaseTodo>, other: seq<DatabaseTodo>, id: string)
    requires UniqueIds(rows) && multiset(other) == multiset(rows)
    ensures Lookup(other, id) == Lookup(rows, id)
  {
    var a, b := Lookup(other, id), Lookup(rows, id);
    if b.Some? {
      assert b.value in multiset(other);
    }
    if a.Some? {
      assert a.value in multiset(rows);
      var k :| 0 <= k < |rows| && rows[k] == a.value;
      LookupFindsRow(rows, k);
    }
  }

  /** One assignment of an `UPDATE ... SET` clause. */
  datatype Assignment = SetText(text: string) | SetCompleted(completed: bool)

  function Assign(row: DatabaseTodo, a: Assignment): DatabaseTodo {
    match a
    case SetText(t) => row.(text := t)
    case SetCompleted(c) => row.(completed := c)
  }

  function AssignAll(row: DatabaseTodo, fields: seq<Assignment>): DatabaseTodo
    decreases |fields|
  {
    if fields == [] then row else AssignAll(Assign(row, fields[0]), fields[1..])
  }

  /** `UPDATE todos SET <fields> WHERE id = ?`. */
  function AssignWhere(rows: seq<DatabaseTodo>, id: string, fields: seq<Assignment>): seq<DatabaseTodo> {
    seq(|rows|, k requires 0 <= k < |rows| => if rows[k].id == id then AssignAll(rows[k], fields) else rows[k])
  }

  predicate NoFields(updates: Patch) {
    updates.text.None? && updates.completed.None?
  }

  /** A row after a partial update: the supplied fields replaced, the rest kept. */
  function Patched(row: DatabaseTodo, updates: Patch): (r: DatabaseTodo)
    ensures r.id == row.id && r.createdAt == row.createdAt
    ensures updates.text.None? ==> r.text == row.text
    ensures updates.completed.None? ==> r.completed == row.completed
    ensures NoFields(updates) ==> r == row
  {
    row.(text := if updates.text.Some? then updates.text.value else row.text,
         completed := if updates.completed.Some? then updates.completed.value else row.completed)
  }

  /** The SET clause built from the supplied fields, text first, performs the patch. */
  lemma SetClauseRealizesPatch(row: DatabaseTodo, updates: Patch, fields: seq<Assignment>)
    requires fields == (if updates.text.Some? then [SetText(updates.text.value)] else [])
                       + (if updates.completed.Some? then [SetCompleted(updates.completed.value)] else [])
    ensures AssignAll(row, fields) == Patched(row, updates)
  {
    var rest := if updates.completed.Some? then [SetCompleted(updates.completed.value)] else [];
    var mid := if updates.text.Some? then row.(text := updates.text.value) else row;
    assert AssignAll(mid, []) == mid;
    assert AssignAll(mid, rest) == Patched(row, updates);
    if updates.text.Some? {
      assert fields == [SetText(updates.text.value)] + rest;
      assert fields[1..] == rest;
    }
  }

  /** The table after a partial update of the row with that id. */
  function PatchWhere(rows: seq<DatabaseTodo>, id: string, updates: Patch): seq<DatabaseTodo> {
    seq(|rows|, k requires 0 <= k < |rows| => if rows[k].id == id then Patched(rows[k], updates) else rows[k])
  }

  /** A partial update touches only the row with that id, keeps every id and
      creation time, so the primary key still holds, and finds nothing to do
      when no row has the id. */
  lemma PatchWhereFrame(rows: seq<DatabaseTodo>, id: string, updates: Patch)
    ensures var after := PatchWhere(rows, id, updates);
            && |after| == |rows|
            && (forall k :: 0 <= k < |rows| ==> after[k].id == rows[k].id && after[k].createdAt == rows[k].createdAt)
            && (forall k :: 0 <= k < |rows| && rows[k].id != id ==> after[k] == rows[k])
            && (UniqueIds(rows) ==> UniqueIds(after))
            && (!HasId(rows, id) ==> after == rows)
  {
  }

  /** Under the primary key, reading back the updated id gives the patched row. */
  lemma PatchWhereLookup(rows: seq<DatabaseTodo>, id: string, updates: Patch)
    requires UniqueIds(rows) && HasId(rows, id)
    ensures Lookup(PatchWhere(rows, id, updates), id) == Some(Patched(Lookup(rows, id).value, updates))
  {
    var k :| 0 <= k < |rows| && rows[k].id == id;
    LookupFindsRow(rows, k);
    var after := PatchWhere(rows, id, updates);
    PatchWhereFrame(rows, id, updates);
    LookupFindsRow(after, k);
  }

  /** `DELETE FROM todos WHERE id = ?`. */
  function RemoveId(rows: seq<DatabaseTodo>, id: string): seq<DatabaseTodo> {
    Filter(rows, (t: DatabaseTodo) => t.id != id)
  }

  /** The rows a `WHERE id = ?` clause matches. */
  function WithId(rows: seq<DatabaseTodo>, id: string): seq<DatabaseTodo> {
    Filter(rows, (t: DatabaseTodo) => t.id == id)
  }

  /** Deleting an id removes every row with it, keeps every other row in order,
      and removes some row exactly when the id was present; the number the
      statement reports is the number of rows `WHERE id = ?` matches. */
  lemma RemoveIdSpec(rows: seq<DatabaseTodo>, id: string)
    ensures var after := RemoveId(rows, id);
            && !HasId(after, id)
            && IsSubsequence(after, rows)
            && (forall t :: t in rows && t.id != id ==> t in after)
            && (|after| < |rows| <==> HasId(rows, id))
            && |rows| - |after| == |WithId(rows, id)|
            && (UniqueIds(rows) ==> |WithId(rows, id)| <= 1)
  {
    var after := RemoveId(rows, id);
    FilterIsSubsequence(rows, (t: DatabaseTodo) => t.id != id);
    FilterKeepsAll(rows, (t: DatabaseTodo) => t.id != id);
    FilterPartition(rows, (t: DatabaseTodo) => t.id == id, (t: DatabaseTodo) => t.id != id);
    forall t | t in rows && t.id != id ensures t in after {
      FilterMembership(rows, (t: DatabaseTodo) => t.id != id, t);
    }
    if UniqueIds(rows) {
      WithIdUnique(rows, id);
    }
  }

  lemma {:induction false} WithIdUnique(rows: seq<DatabaseTodo>, id: string)
    requires UniqueIds(rows)
    ensures |WithId(rows, id)| <= 1
  {
    if rows != [] {
      WithIdUnique(rows[1..], id);
      if rows[0].id == id {
        assert forall k :: 0 <= k < |rows[1..]| ==> rows[1..][k].id != id;
        FilterKeepsAll(rows[1..], (t: DatabaseTodo) => t.id != id);
        FilterPartition(rows[1..], (t: DatabaseTodo) => t.id == id, (t: DatabaseTodo) => t.id != id);
      }
    }
  }

  predicate IsDone(t: DatabaseTodo) {
    t.completed
  }

  predicate IsOpenTodo(t: DatabaseTodo) {
    !t.completed
  }

  /** `DELETE FROM todos WHERE completed = 1`. */
  function RemoveCompleted(rows: seq<DatabaseTodo>): seq<DatabaseTodo> {
    Filter(rows, IsOpenTodo)
  }

  /** Clearing keeps exactly the open rows, in order, reports as removed the
      number of completed rows, and leaves nothing for a second clear. */
  lemma RemoveCompletedSpec(rows: seq<DatabaseTodo>)
    ensures var after := RemoveCompleted(rows);
            && (forall t :: t in after <==> t in rows && !t.completed)
            && IsSubsequence(after, rows)
            && |rows| - |after| == |Filter(rows, IsDone)|
            && RemoveCompleted(after) == after
            && |Filter(after, IsDone)| == 0
  {
    var after := RemoveCompleted(rows);
    forall t ensures t in after <==> t in rows && !t.completed {
      FilterMembership(rows, IsOpenTodo, t);
    }
    FilterIsSubsequence(rows, IsOpenTodo);
    FilterPartition(rows, IsDone, IsOpenTodo);
    FilterIdempotent(rows, IsOpenTodo);
    FilterThenComplement(rows, IsOpenTodo, IsDone);
  }

  /** `ORDER BY createdAt DESC`: no row is newer than one listed before it. */
  predicate NewestFirst(rows: seq<DatabaseTodo>) {
    forall i, j :: 0 <= i < j < |rows| ==> LexLe(rows[j].createdAt, rows[i].createdAt)
  }

  /** A row no older than any row of a newest-first list may head it. */
  lemma PrependNewest(h: DatabaseTodo, t: seq<DatabaseTodo>)
    requires NewestFirst(t)
    requires forall y :: y in t ==> LexLe(y.createdAt, h.createdAt)
    ensures NewestFirst([h] + t)
  {
    var r := [h] + t;
    forall i, j | 0 <= i < j < |r| ensures LexLe(r[j].createdAt, r[i].createdAt) {
      assert r[j] == t[j - 1];
      if i > 0 { assert r[i] == t[i - 1]; }
    }
  }

  /** The head of a newest-first list is no older than any later row. */
  lemma HeadIsNewest(rows: seq<DatabaseTodo>)
    requires NewestFirst(rows) && rows != []
    ensures forall y :: y in rows ==> LexLe(y.createdAt, rows[0].createdAt)
  {
    forall y | y in rows ensures LexLe(y.createdAt, rows[0].createdAt) {
      var j :| 0 <= j < |rows| && rows[j] == y;
      if j == 0 { LexLeTotal(y.createdAt, y.createdAt); }
    }
  }

  /** A row no older than the head of a newest-first list may go in front. */
  lemma PrependBeforeHead(x: DatabaseTodo, rows: seq<DatabaseTodo>)
    requires NewestFirst(rows) && rows != [] && LexLe(rows[0].createdAt, x.createdAt)
    ensures NewestFirst([x] + rows)
  {
    HeadIsNewest(rows);
    forall y | y in rows ensures LexLe(y.createdAt, x.createdAt) {
      LexLeTransitive(y.createdAt, rows[0].createdAt, x.createdAt);
    }
    PrependNewest(x, rows);
  }

  /** A bound on every row of `rest` and on `x` bounds every row of a list
      holding exactly those rows. */
  lemma InsertedBound(h: DatabaseTodo, x: DatabaseTodo, rest: seq<DatabaseTodo>, t: seq<DatabaseTodo>)
    requires multiset(t) == multiset(rest) + multiset{x}
    requires forall y :: y in rest ==> LexLe(y.createdAt, h.createdAt)
    requires LexLe(x.createdAt, h.createdAt)
    ensures forall y :: y in t ==> LexLe(y.createdAt, h.createdAt)
  {
    forall y | y in t ensures LexLe(y.createdAt, h.createdAt) {
      assert y in multiset(t);
      if y != x { assert y in multiset(rest); }
    }
  }

  function InsertByCreatedAt(x: DatabaseTodo, rows: seq<DatabaseTodo>): (r: seq<DatabaseTodo>)
    requires NewestFirst(rows)
    ensures NewestFirst(r) && multiset(r) == multiset(rows) + multiset{x}
  {
    if rows == [] then [x]
    else if LexLe(rows[0].createdAt, x.createdAt) then
      PrependBeforeHead(x, rows);
      [x] + rows
    else
      assert rows == [rows[0]] + rows[1..];
      var t := InsertByCreatedAt(x, rows[1..]);
      LexLeTotal(rows[0].createdAt, x.createdAt);
      HeadIsNewest(rows);
      InsertedBound(rows[0], x, rows[1..], t);
      PrependNewest(rows[0], t);
      [rows[0]] + t
  }

  /** The order the engine returns the table in for `ORDER BY createdAt DESC`;
      rows with equal timestamps may come in any order, and callers rely only
      on the contract. */
  function SortNewestFirst(rows: seq<DatabaseTodo>): (r: seq<DatabaseTodo>)
    ensures NewestFirst(r) && multiset(r) == multiset(rows)
  {
    if rows == [] then []
    else
      assert rows == [rows[0]] + rows[1..];
      InsertByCreatedAt(rows[0], SortNewestFirst(rows[1..]))
  }

  // ---------------------------------------------------------------------------
  // `updateTodo` as written: the re-read after a successful UPDATE tests
  // `this.db` inside a `function(err)` callback, where `this` is the driver's
  // statement result, which has no `db`; so the call always rejects with
  // "Database connection lost" after the row was already changed.

  /** `updateTodo` as written, on an open connection whose statements succeed:
      the new table and what the caller receives. */
  function UpdateAsWritten(rows: seq<DatabaseTodo>, id: string, updates: Patch)
    : (out: (seq<DatabaseTodo>, Result<Option<DatabaseTodo>, StoreError>))
    ensures out.0 == if NoFields(updates) then rows else PatchWhere(rows, id, updates)
  {
    if NoFields(updates) then (rows, Failure(NoUpdatesProvided))
    else if !HasId(rows, id) then (rows, Success(None))
    else (PatchWhere(rows, id, updates), Failure(ConnectionLost))
  }

  /** As written, a successful update never hands back the updated row: when the
      id exists the table changes and yet the caller is told the update failed. */
  lemma UpdateAsWrittenNeverReturnsRow(rows: seq<DatabaseTodo>, id: string, updates: Patch)
    ensures !(UpdateAsWritten(rows, id, updates).1.Success? && UpdateAsWritten(rows, id, updates).1.value.Some?)
    ensures HasId(rows, id) && !NoFields(updates) ==>
              UpdateAsWritten(rows, id, updates).1 == Failure(ConnectionLost)
              && UpdateAsWritten(rows, id, updates).0 == PatchWhere(rows, id, updates)
  {
  }

  /** The input that shows it: completing the one todo of a one-row table. */
  lemma UpdateAsWrittenCounterexample()
    ensures var row := DatabaseTodo("1700000000000", "Task A", false, "2024-01-01T00:00:00.000Z");
            var out := UpdateAsWritten([row], row.id, Patch(None, Some(true)));
            out.0 == [row.(completed := true)] && out.1 == Failure(ConnectionLost)
  {
    var row := DatabaseTodo("1700000000000", "Task A", false, "2024-01-01T00:00:00.000Z");
    assert HasId([row], row.id) by { assert [row][0].id == row.id; }
  }

  // ---------------------------------------------------------------------------

  class SqliteTodoDatabase {
    var db: Handle
    /** The `todos` table of the database file. */
    var rows: seq<DatabaseTodo>
    const filepath: string
    const verbose: bool

    ghost predicate Valid()
      reads this
    {
      UniqueIds(rows)
    }

    /** A store over the file whose table currently holds `disk` (an absent
        table is an empty one: `CREATE TABLE IF NOT EXISTS` makes it so). */
    constructor (config: DatabaseConfig, disk: seq<DatabaseTodo>)
      requires UniqueIds(disk)
      ensures Valid() && db == Closed && rows == disk
      ensures filepath == FilepathOf(config) && verbose == VerboseOf(config)
    {
      filepath := FilepathOf(config);
      verbose := VerboseOf(config);
      db := Closed;
      rows := disk;
    }

    /** Opens the file and creates the table if it is absent; the table's
        rows are never touched, so initializing again changes nothing. */
    method Initialize(outcome: OpenOutcome) returns (r: Outcome<StoreError>)
      requires Valid()
      modifies this
      ensures Valid() && rows == old(rows)
      ensures r == Pass <==> outcome == Opened
      ensures outcome == CannotOpen ==> r == Fail(ConnectFailed) && db == Unopened
      ensures outcome == CannotCreateTable ==> r == Fail(CreateTableFailed)
      ensures outcome != CannotOpen ==> db == Open
    {
      match outcome
      case CannotOpen =>
        db := Unopened;
        r := Fail(ConnectFailed);
      case CannotCreateTable =>
        db := Open;
        r := Fail(CreateTableFailed);
      case Opened =>
        db := Open;
        r := Pass;
    }

    /** `SELECT * FROM todos ORDER BY createdAt DESC`. */
    method GetAllTodos(driverFails: bool) returns (r: Result<seq<DatabaseTodo>, StoreError>)
      ensures db == Closed ==> r == Failure(NotInitialized)
      ensures db != Closed && r.Failure? ==> r.error == FetchFailed
      ensures r.Success? <==> db == Open && !driverFails
      ensures r.Success? ==> NewestFirst(r.value) && multiset(r.value) == multiset(rows)
    {
      if db == Closed {
        return Failure(NotInitialized);
      }
      if db == Unopened || driverFails {
        return Failure(FetchFailed);
      }
      r := Success(SortNewestFirst(rows));
    }

    /** Inserts `todo` under the id `Date.now().toString()`, read from the
        clock as `now`; the primary key rejects an id already in the table. */
    method AddTodo(todo: NewTodo, now: nat, driverFails: bool) returns (r: Result<DatabaseTodo, StoreError>)
      requires Valid()
      modifies this
      ensures Valid() && db == old(db)
      ensures old(db) == Closed ==> r == Failure(NotInitialized)
      ensures old(db) != Closed && r.Failure? ==> r.error == AddFailed
      ensures r.Success? <==> old(db) == Open && !driverFails && !HasId(old(rows), Decimal(now))
      ensures r.Success? ==> r.value == DatabaseTodo(Decimal(now), todo.text, todo.completed, todo.createdAt)
      ensures rows == if r.Success? then old(rows) + [r.value] else old(rows)
    {
      if db == Closed {
        return Failure(NotInitialized);
      }
      var id := Decimal(now);
      var newTodo := DatabaseTodo(id, todo.text, todo.completed, todo.createdAt);
      if db == Unopened || driverFails || HasId(rows, id) {
        return Failure(AddFailed);
      }
      rows := rows + [newTodo];
      r := Success(newTodo);
    }

    /** Applies the supplied fields to the row with that id and reads it back;
        `Success(None)` when no row has the id. The UPDATE can fail, and so can
        the read-back, after the row has already changed. */
    method UpdateTodo(id: string, updates: Patch, updateFails: bool, fetchFails: bool)
      returns (r: Result<Option<DatabaseTodo>, StoreError>)
      requires Valid()
      modifies this
      ensures Valid() && db == old(db)
      ensures old(db) == Closed ==> r == Failure(NotInitialized)
      ensures old(db) != Closed && NoFields(updates) ==> r == Failure(NoUpdatesProvided)
      ensures rows == if old(db) == Open && !NoFields(updates) && !updateFails
                      then PatchWhere(old(rows), id, updates) else old(rows)
      ensures r == Success(None) <==>
                old(db) == Open && !NoFields(updates) && !updateFails && !HasId(old(rows), id)
      ensures r.Success? && r.value.Some? <==>
                old(db) == Open && !NoFields(updates) && !updateFails && HasId(old(rows), id) && !fetchFails
      ensures r.Success? && r.value.Some? ==> r.value.value == Patched(Lookup(old(rows), id).value, updates)
      ensures old(db) != Closed && !NoFields(updates) && r.Failure? ==>
                r.error == (if old(db) == Open && !updateFails then FetchUpdatedFailed else UpdateFailed)
    {
      if db == Closed {
        return Failure(NotInitialized);
      }
      // The SET clause, one assignment per supplied field.
      var fields: seq<Assignment> := [];
      if updates.text.Some? {
        fields := fields + [SetText(updates.text.value)];
      }
      if updates.completed.Some? {
        fields := fields + [SetCompleted(updates.completed.value)];
      }
      if |fields| == 0 {
        return Failure(NoUpdatesProvided);
      }
      if db == Unopened || updateFails {
        return Failure(UpdateFailed);
      }
      forall row ensures AssignAll(row, fields) == Patched(row, updates) {
        SetClauseRealizesPatch(row, updates, fields);
      }
      var changes := |WithId(rows, id)|;
      RemoveIdSpec(rows, id);
      PatchWhereFrame(rows, id, updates);
      if HasId(rows, id) {
        PatchWhereLookup(rows, id, updates);
      }
      rows := AssignWhere(rows, id, fields);
      assert rows == PatchWhere(old(rows), id, updates);
      if changes == 0 {
        return Success(None);
      }
      if fetchFails {
        return Failure(FetchUpdatedFailed);
      }
      r := Success(Lookup(rows, id));
    }

    /** `DELETE FROM todos WHERE id = ?`; answers whether a row was removed. */
    method DeleteTodo(id: string, driverFails: bool) returns (r: Result<bool, StoreError>)
      requires Valid()
      modifies this
      ensures Valid() && db == old(db)
      ensures old(db) == Closed ==> r == Failure(NotInitialized)
      ensures old(db) != Closed && r.Failure? ==> r.error == DeleteFailed
      ensures r.Success? <==> old(db) == Open && !driverFails
      ensures r.Success? ==> r.value == HasId(old(rows), id)
      ensures rows == if r.Success? then RemoveId(old(rows), id) else old(rows)
    {
      if db == Closed {
        return Failure(NotInitialized);
      }
      if db == Unopened || driverFails {
        return Failure(DeleteFailed);
      }
      var kept := RemoveId(rows, id);
      RemoveIdSpec(rows, id);
      var changes := |rows| - |kept|;
      FilterIsSubsequence(rows, (t: DatabaseTodo) => t.id != id);
      assert UniqueIds(kept) by { SubsequenceKeepsUniqueIds(kept, rows); }
      rows := kept;
      r := Success(changes > 0);
    }

    /** `DELETE FROM todos WHERE completed = 1`; answers how many rows went. */
    method DeleteCompletedTodos(driverFails: bool) returns (r: Result<nat, StoreError>)
      requires Valid()
      modifies this
      ensures Valid() && db == old(db)
      ensures old(db) == Closed ==> r == Failure(NotInitialized)
      ensures old(db) != Closed && r.Failure? ==> r.error == DeleteCompletedFailed
      ensures r.Success? <==> old(db) == Open && !driverFails
      ensures r.Success? ==> r.value == |Filter(old(rows), IsDone)|
      ensures rows == if r.Success? then RemoveCompleted(old(rows)) else old(rows)
    {
      if db == Closed {
        return Failure(NotInitialized);
      }
      if db == Unopened || driverFails {
        return Failure(DeleteCompletedFailed);
      }
      var kept := RemoveCompleted(rows);
      RemoveCompletedSpec(rows);
      assert UniqueIds(kept) by { SubsequenceKeepsUniqueIds(kept, rows); }
      var changes := |rows| - |kept|;
      rows := kept;
      r := Success(changes);
    }

    /** Closes the connection; closing a closed store succeeds and does nothing. */
    method Close(closeFails: bool) returns (r: Outcome<StoreError>)
      requires Valid()
      modifies this
      ensures Valid() && rows == old(rows)
      ensures old(db) == Closed ==> r == Pass && db == Closed
      ensures old(db) != Closed ==>
                if closeFails then r == Fail(CloseFailed) && db == old(db) else r == Pass && db == Closed
    {
      if db == Closed {
        return Pass;
      }
      if closeFails {
        return Fail(CloseFailed);
      }
      db := Closed;
      r := Pass;
    }
  }

  lemma {:induction false} SubsequenceKeepsUniqueIds(r: seq<DatabaseTodo>, s: seq<DatabaseTodo>)
    requires IsSubsequence(r, s) && UniqueIds(s)
    ensures UniqueIds(r)
    decreases |s|
  {
    if r != [] {
      assert UniqueIds(s[1..]) by {
        forall i, j | 0 <= i < j < |s[1..]| ensures s[1..][i].id != s[1..][j].id {
          assert s[1..][i] == s[i + 1] && s[1..][j] == s[j + 1];
        }
      }
      if r[0] == s[0] && IsSubsequence(r[1..], s[1..]) {
        SubsequenceKeepsUniqueIds(r[1..], s[1..]);
        forall j | 0 < j < |r| ensures r[0].id != r[j].id {
          SubsequenceMembers(r[1..], s[1..], j - 1);
          var m :| 0 <= m < |s[1..]| && s[1..][m] == r[1..][j - 1];
          assert s[m + 1] == r[j];
        }
        forall i, j | 0 < i < j < |r| ensures r[i].id != r[j].id {
          assert r[i] == r[1..][i - 1] && r[j] == r[1..][j - 1];
        }
      } else {
        SubsequenceKeepsUniqueIds(r, s[1..]);
      }
    }
  }

  lemma {:induction false} SubsequenceMembers<T>(r: seq<T>, s: seq<T>, k: nat)
    requires IsSubsequence(r, s) && k < |r|
    ensures exists m :: 0 <= m < |s| && s[m] == r[k]
    decreases |s|
  {
    if r[0] == s[0] && IsSubsequence(r[1..], s[1..]) {
      if k > 0 {
        SubsequenceMembers(r[1..], s[1..], k - 1);
        var m :| 0 <= m < |s[1..]| && s[1..][m] == r[1..][k - 1];
        assert s[m + 1] == r[k];
      } else {
        assert s[0] == r[0];
      }
    } else {
      SubsequenceMembers(r, s[1..], k);
      var m :| 0 <= m < |s[1..]| && s[1..][m] == r[k];
      assert s[m + 1] == r[k];
    }
  }
}
