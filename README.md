# Todo list persistence and client list logic, modelled in Dafny

This project models the core of a single-user todo list manager:

- the **record store** (`SQLiteTodoDatabase`): one `todos` table keyed by `id`. It is reached through a connection that is absent until `initialize` and again after `close`. It lists, inserts, partially updates and deletes rows;
- the **store factory** (`DatabaseFactory`): picks a backend from a tag and builds the default configuration;
- the **todo service** (`TodoService`): a façade that is either uninitialized or initialized with an open store. It rejects blank text, maps between the storage and application shapes, and replaces store failures with fixed messages;
- the **client list logic** (`useTodos`): the pure list transforms behind the UI (add, toggle, delete, edit, clear completed, filter, stats).

The SQL table is a `seq<DatabaseTodo>` field of the store class. The UPDATE, DELETE and SELECT statements are modelled by functions that say what they do to the table or what they read from it (`PatchWhere`, `RemoveId`, `RemoveCompleted`, `SortNewestFirst`). The INSERT is an append to the field, and `CREATE TABLE IF NOT EXISTS` leaves an existing table as it is. Several things outside the code are inputs to the methods:

- the outcome of opening the database file;
- the table already in the file when it is opened;
- whether the driver reports an error for a given statement;
- the clock readings used for ids (`Date.now()`) and for creation times (`new Date().toISOString()`);
- the `NODE_ENV` environment variable.

Files, one module each:

| file | module | models |
|---|---|---|
| `wrappers.dfy` | `Wrappers` | `Option`, `Result`, `Outcome` for `null` results and rejected promises |
| `text.dfy` | `Text` | JavaScript `trim`, `Number.toString` of a clock reading, SQLite's TEXT order |
| `seqs.dfy` | `Seqs` | `Array.prototype.filter` and its properties |
| `records.dfy` | `Records` | `app/types.ts`, `app/lib/database.interface.ts` |
| `sqlite_database.dfy` | `SqliteDatabase` | `app/lib/sqlite.database.ts` |
| `database_factory.dfy` | `DatabaseFactory` | `app/lib/database.factory.ts` |
| `todo_service.dfy` | `Service` | `app/lib/todo.service.ts` |
| `use_todos.dfy` | `UseTodos` | `app/hooks/useTodos.ts` |

Behaviour of the code that the model keeps:

- The store itself rejects an update with no fields ("No updates provided").
- Ids are `Date.now().toString()`, not guaranteed fresh. A second insert within the same millisecond hits the primary key and fails (`AddTodo`'s contract says exactly when).
- `initialize` opens a new connection each time it is called. The model keeps the table unchanged and the handle open; the leaked earlier connection is not modelled.
- The driver object is assigned to `db` before the driver reports on the open, so after a failed open `db` is not null and the "Database not initialized" guard lets operations through. What the driver then does with a statement on a database that never opened is outside the code. The model treats each such statement as a driver failure, and the handle is `Unopened`.

## Model

| member | source | states |
|---|---|---|
| `Text.Trim` | app/lib/todo.service.ts:74 | the result is the slice of the input between leading and trailing whitespace (ECMAScript WhiteSpace and LineTerminator); its ends are not whitespace; it is empty iff the input is all whitespace |
| `Text.TrimIdempotent` | app/hooks/useTodos.ts:30-33 | trimming a trimmed text changes nothing |
| `Text.TrimmedNotBlank` | app/lib/todo.service.ts:74-80 | a text that passes the blank check stays non-blank after trimming |
| `Text.Decimal` | app/lib/sqlite.database.ts:78 | `Date.now().toString()` is a non-empty string of decimal digits without a leading zero |
| `Text.DecimalRoundTrip` | app/lib/sqlite.database.ts:78 | reading the digits of an id back gives the clock reading |
| `Text.DecimalInjective` | app/lib/sqlite.database.ts:78 | two ids are equal iff the clock readings are equal |
| `Text.LexLeTotal` | app/lib/sqlite.database.ts:51 | any two creation times are comparable in the TEXT order |
| `Text.LexLeTransitive` | app/lib/sqlite.database.ts:51 | the TEXT order is transitive |
| `Text.LexLeAntisymmetric` | app/lib/sqlite.database.ts:51 | two creation times each at or before the other are equal |
| `SqliteDatabase.FilepathOf` | app/lib/sqlite.database.ts:10 | the store's path is never empty; a supplied non-empty path is used as given; an absent or empty path falls back to `./data/todos.db` |
| `SqliteDatabase.VerboseOf` | app/lib/sqlite.database.ts:11 | the store is verbose iff the config says `verbose: true` |
| `SqliteDatabase.SqliteTodoDatabase.constructor` | app/lib/sqlite.database.ts:9-12 | a new store has no connection, the file's table, and the path and verbosity resolved from the config |
| `SqliteDatabase.SqliteTodoDatabase.Initialize` | app/lib/sqlite.database.ts:14-41 | on success the connection is open; a failed open leaves an unopened handle and fails with the connection error; a failed table creation fails with its own error; the table is never changed, so a repeated call is harmless |
| `SqliteDatabase.SqliteTodoDatabase.GetAllTodos` | app/lib/sqlite.database.ts:43-69 | with no connection it fails with "Database not initialized"; on success it returns exactly the table's rows (as a multiset, so an empty table gives an empty list) ordered by `createdAt`, newest first |
| `SqliteDatabase.SqliteTodoDatabase.AddTodo` | app/lib/sqlite.database.ts:71-96 | with no connection it fails with "Database not initialized"; it succeeds iff the driver succeeds and no row has the clock-derived id; then it returns the supplied fields under that id and appends exactly that row; on failure the table is unchanged; the primary key keeps holding |
| `SqliteDatabase.SqliteTodoDatabase.UpdateTodo` | app/lib/sqlite.database.ts:98-171 | with no connection it fails with "Database not initialized"; with no field supplied it fails with "No updates provided" and changes nothing; otherwise the table becomes the patched table; it returns `None` iff no row had the id, and otherwise the patched row read back; a failing read-back comes after the change |
| `SqliteDatabase.SqliteTodoDatabase.DeleteTodo` | app/lib/sqlite.database.ts:173-192 | with no connection it fails with "Database not initialized"; on success it answers whether a row had the id and the table loses exactly the rows with that id |
| `SqliteDatabase.SqliteTodoDatabase.DeleteCompletedTodos` | app/lib/sqlite.database.ts:194-212 | with no connection it fails with "Database not initialized"; on success the table keeps exactly its open rows and the answer is the number of completed rows |
| `SqliteDatabase.SqliteTodoDatabase.Close` | app/lib/sqlite.database.ts:214-230 | closing a closed store succeeds and does nothing; otherwise a successful close drops the connection and a failed one keeps it; the table is untouched |
| `SqliteDatabase.Lookup` | app/lib/sqlite.database.ts:145-157 | the row read back has the id, is in the table, and exists iff some row has the id |
| `SqliteDatabase.LookupFindsRow` | app/lib/sqlite.database.ts:27 | under the primary key, looking up a row's id finds that row |
| `SqliteDatabase.LookupPermutation` | app/lib/sqlite.database.ts:27 | two tables with the same rows under the primary key answer every lookup alike |
| `SqliteDatabase.SetClauseRealizesPatch` | app/lib/sqlite.database.ts:105-126 | the SET clause built field by field from the supplied fields performs exactly the partial update |
| `SqliteDatabase.Patched` | app/lib/sqlite.database.ts:109-117 | a patched row keeps its id and creation time, and any field not supplied |
| `SqliteDatabase.PatchWhereFrame` | app/lib/sqlite.database.ts:109-136 | `PatchWhere`, the `UPDATE … WHERE id = ?` statement: an update changes only the row with that id, keeps every id and creation time and the primary key, and changes nothing when no row has the id |
| `SqliteDatabase.PatchWhereLookup` | app/lib/sqlite.database.ts:134-166 | reading the updated id back gives the old row with the supplied fields replaced |
| `SqliteDatabase.RemoveIdSpec` | app/lib/sqlite.database.ts:180-188 | `RemoveId`, the `DELETE … WHERE id = ?` statement: after a delete no row has the id; every other row remains, in order; a row was removed iff the id was present; the reported count is the number of rows with the id, at most one under the primary key |
| `SqliteDatabase.WithIdUnique` | app/lib/sqlite.database.ts:27 | under the primary key, at most one row has a given id |
| `SqliteDatabase.RemoveCompletedSpec` | app/lib/sqlite.database.ts:201-208 | `RemoveCompleted`, the `DELETE … WHERE completed = 1` statement: clearing keeps exactly the open rows, in order; it reports the number of completed rows; a second clear removes nothing and reports 0 |
| `SqliteDatabase.InsertByCreatedAt` | app/lib/sqlite.database.ts:51 | inserting into a newest-first list keeps it newest first and adds exactly the one row |
| `SqliteDatabase.SortNewestFirst` | app/lib/sqlite.database.ts:51 | the listing is newest first and a permutation of the table |
| `SqliteDatabase.SubsequenceKeepsUniqueIds` | app/lib/sqlite.database.ts:27 | deleting rows keeps the primary key |
| `SqliteDatabase.UpdateAsWritten` | app/lib/sqlite.database.ts:128-143 | as written, the table after an update is the patched table unless no field was supplied |
| `SqliteDatabase.UpdateAsWrittenNeverReturnsRow` | app/lib/sqlite.database.ts:134-143 | as written, an update never returns the updated row: when the id exists the row changes and the call rejects with "Database connection lost" |
| `SqliteDatabase.UpdateAsWrittenCounterexample` | app/lib/sqlite.database.ts:140-143 | completing the one todo of a one-row table changes the row and rejects |
| `DatabaseFactory.Create` | app/lib/database.factory.ts:11-33 | only `'sqlite'` with a successful open yields a store, which is fresh, open, holds the file's table and is configured from the config; a failing open passes the store's error on; `'postgres'`, `'mongodb'` and `'memory'` fail as not implemented; any other tag fails as unsupported |
| `DatabaseFactory.GetDefaultConfig` | app/lib/database.factory.ts:35-41 | the default is `'sqlite'` at `./data/todos.db`, verbose iff the environment mode is `'development'` |
| `DatabaseFactory.DefaultConfigResolution` | app/lib/database.factory.ts:14 | a store built from the default config opens `./data/todos.db` and is verbose iff in development |
| `DatabaseFactory.EmptyConfigResolution` | app/lib/sqlite.database.ts:9-12 | with nothing configured the store falls back to `./data/todos.db` and is not verbose |
| `Service.MappingRoundTrip` | app/lib/todo.service.ts:40-57 | `MapDatabaseTodoToTodo` and `MapTodoToDatabaseTodo`, the two converters, are inverse to each other, so the todo shapes convert without loss either way round |
| `Service.MapAll` | app/lib/todo.service.ts:64 | the mapped listing has one application todo per row, each mapping back to its row |
| `Service.MapAllRoundTrip` | app/lib/todo.service.ts:64 | mapping a listing and back gives it unchanged |
| `Service.Find` | app/lib/todo.service.ts:98 | the found todo has the id and is the first todo of the list with that id; none is found iff no todo has the id |
| `Service.FindMapped` | app/lib/todo.service.ts:97-98 | finding an id in the mapped listing is looking it up in the rows |
| `Service.FindInListing` | app/lib/todo.service.ts:97-102 | the listing's first todo with the id is the table's row with that id |
| `Service.ToggleTwiceRestores` | app/lib/todo.service.ts:104-106 | toggling a row flips its flag, and toggling again restores the table |
| `Service.PatchKeepsNonBlank` | app/lib/todo.service.ts:104-124 | an update that sets no text, or a non-blank one, keeps `NonBlankTexts`: no stored todo has a blank text |
| `Service.RemoveIdKeepsNonBlank` | app/lib/todo.service.ts:134-143 | deleting a todo keeps `NonBlankTexts` |
| `Service.RemoveCompletedKeepsNonBlank` | app/lib/todo.service.ts:145-154 | clearing completed todos keeps `NonBlankTexts` |
| `Service.TodoService.constructor` | app/lib/todo.service.ts:7-10 | a new service is uninitialized and holds no store |
| `Service.TodoService.Initialize` | app/lib/todo.service.ts:20-31 | a no-op once initialized; otherwise it succeeds iff the file opens, and then holds a fresh open store at the default path; on failure it rethrows the factory's error and stays uninitialized |
| `Service.TodoService.GetAllTodos` | app/lib/todo.service.ts:59-69 | fails "not initialized" unless initialized; a store failure becomes "Failed to load todos from database"; on success it returns every row, newest first, in the application shape |
| `Service.TodoService.AddTodo` | app/lib/todo.service.ts:71-90 | fails "not initialized" unless initialized; then rejects blank text before touching the store; otherwise stores and returns the trimmed text, open, with the given creation time; a store failure becomes "Failed to add todo to database" and changes nothing; it keeps every stored text non-blank (`NonBlankTexts`) |
| `Service.TodoService.ToggleTodo` | app/lib/todo.service.ts:92-113 | fails "not initialized" unless initialized; returns `None` when no row has the id; otherwise it writes and returns the row with its flag negated and its text kept; a failure of the read or the write becomes "Failed to update todo in database"; it keeps every stored text non-blank (`NonBlankTexts`) |
| `Service.TodoService.UpdateTodoText` | app/lib/todo.service.ts:115-132 | fails "not initialized" unless initialized; then rejects blank text with "Todo text cannot be empty"; otherwise it sends only the trimmed text; it returns `None` iff no row has the id, and otherwise the row with the new text and its flag and time kept; it keeps every stored text non-blank (`NonBlankTexts`) |
| `Service.TodoService.DeleteTodo` | app/lib/todo.service.ts:134-143 | fails "not initialized" unless initialized; answers whether a row had the id and removes it; a store failure becomes "Failed to delete todo from database"; it keeps every stored text non-blank (`NonBlankTexts`) |
| `Service.TodoService.ClearCompleted` | app/lib/todo.service.ts:145-154 | fails "not initialized" unless initialized; removes the completed rows and answers their number; a store failure becomes "Failed to clear completed todos from database"; it keeps every stored text non-blank (`NonBlankTexts`) |
| `Service.TodoService.Close` | app/lib/todo.service.ts:156-162 | with a store, a successful close closes it, drops it and resets `initialized`, so a later `Initialize` reconnects; a failing close passes the store's error on and keeps the service as it was, with the store still holding its connection and its table; without a store it does nothing |
| `Service.TodoService.IsHealthy` | app/lib/todo.service.ts:165-175 | never fails; true iff `Ready()` (the `ensureInitialized` test: initialized and holding a store) and the store read succeeds |
| `UseTodos.AddTodo` | app/hooks/useTodos.ts:29-39 | blank text leaves the list unchanged; otherwise exactly one todo is prepended, with the trimmed non-blank text, not completed, and the clock-derived id |
| `UseTodos.ToggleTodo` | app/hooks/useTodos.ts:41-47 | length and order are kept; only the flag of todos with the id flips; every other field is kept |
| `UseTodos.ToggleTwiceRestores` | app/hooks/useTodos.ts:41-47 | toggling twice restores the list |
| `UseTodos.DeleteTodoSpec` | app/hooks/useTodos.ts:49-51 | `DeleteTodo` (`todos.filter(todo => todo.id !== id)`): no todo with the id remains; every other todo remains, as often as before and in order |
| `UseTodos.UpdateTodo` | app/hooks/useTodos.ts:53-61 | blank text is a no-op; otherwise the todos with the id get the trimmed text and nothing else changes |
| `UseTodos.ClearCompletedSpec` | app/hooks/useTodos.ts:63-65 | `ClearCompleted` (`todos.filter(todo => !todo.completed)`): clearing keeps exactly the active todos, in order, and is idempotent |
| `UseTodos.GetFilteredTodosSpec` | app/hooks/useTodos.ts:67-73 | `GetFilteredTodos`: `all` gives the whole list; `active` exactly the open todos and `completed` exactly the completed ones; each is an order-preserving subsequence |
| `UseTodos.GetStats` | app/hooks/useTodos.ts:75-83 | `total` is the list length; `active + completed = total`; the counts are the lengths of the two filtered views |
| `UseTodos.FilterSameTest` | app/hooks/useTodos.ts:69-70 | the filter's tests select the same todos as the counters' tests |
| `UseTodos.StatsAcrossOperations` | app/hooks/useTodos.ts:29-83 | adding a todo adds one to `total` and `active`; clearing leaves no completed todo and keeps `active`; toggling keeps `total` |

## Findings

| source | as written | input that shows it | evidently intended | confidence | as-written member | corrected member |
|---|---|---|---|---|---|---|
| app/lib/sqlite.database.ts:140-145 | after a successful UPDATE, the re-read tests `this.db` inside a `function(err)` driver callback. There `this` is the driver's statement result, which has no `db`, so the call rejects with "Database connection lost" after the row has already changed | a one-row table, `updateTodo(id, {completed: true})` on that row's id: the row is completed, yet the caller gets a rejection (and the service reports "Failed to update todo in database") | re-read the row through the store's own connection and return it | medium, not executed: depends on the driver's statement object having no `db` property | `SqliteDatabase.UpdateAsWrittenCounterexample` | `SqliteDatabase.SqliteTodoDatabase.UpdateTodo` |

## Left out

- The sqlite3 driver, the file system, SQL text and callback wiring are not modelled. The table is a sequence of rows. The driver's success or failure, and the outcome of opening the file, are method inputs.
- The driver's own error text, which the store appends to each failure message, is not modelled. Each error is a constructor; `Message` gives the fixed part.
- The INTEGER 0/1 encoding of `completed` is left out. The store writes `completed ? 1 : 0` and reads `Boolean(row.completed)`, which is lossless, so rows hold a boolean.
- Promises and async scheduling are left out. Each operation is a sequential method. The "Database connection lost" guard of the corrected `UpdateTodo` can only fire when another call closes the store while an update is in flight, so the corrected model has no such branch.
- `Date.now()`, `new Date()`, `toISOString()` and `new Date(string)` are left out. Clock readings are inputs, and a creation time is its ISO text in both todo shapes. Parsing non-canonical or invalid date strings is not modelled.
- SQLite orders TEXT by comparing UTF-8 bytes, which orders Unicode scalar values by code point; `LexLe` compares code points directly. Rows with equal `createdAt` come back in an unspecified order. The contract of `GetAllTodos` promises only newest-first order and a permutation.
- The static singleton `getInstance`, and the race between concurrent `initialize` calls, are left out. The model has one service object and sequential calls.
- `console.error` logging is left out.
- The HTTP handlers under `app/api`, the React components, `app/page.tsx` and the hook's `localStorage` load/save effects are not part of this model.
- `SqliteDatabase.SqliteTodoDatabase.Initialize`: a repeated `initialize` opens a new connection and leaks the earlier one. The model only records that the connection is open.
- `Service.NonBlankTexts` holds only when the table already in the file has no blank text. The store accepts any text, and a file written by other means may hold blank ones. The service's methods promise to keep the property, not to establish it.
