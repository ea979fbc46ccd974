/**
 * The record shapes shared by the store, the service and the client list:
 * the application todo, its storage form, the store's partial update and
 * configuration, and the client's filter and statistics.
 */
module Records {
  import opened Wrappers

  /** A creation time as the ISO-8601 text `toISOString` produces; the
      application's `Date` and the stored TEXT column denote the same instant. */
  type Timestamp = string

  /** A todo as the application sees it. */
  datatype Todo = Todo(id: string, text: string, completed: bool, createdAt: Timestamp)

  /** A todo as the store reads and writes it. */
  datatype DatabaseTodo = DatabaseTodo(id: string, text: string, completed: bool, createdAt: Timestamp)

  /** What a caller hands the store to insert: a todo without its id. */
  datatype NewTodo = NewTodo(text: string, completed: bool, createdAt: Timestamp)

  /** A partial update: each field is either supplied or left out. */
  datatype Patch = Patch(text: Option<string>, completed: Option<bool>)

  /** The store's configuration; every field is optional. */
  datatype DatabaseConfig = DatabaseConfig(filepath: Option<string>, verbose: Option<bool>)

  datatype FilterType = All | Active | Completed

  datatype TodoStats = TodoStats(total: nat, active: nat, completed: nat)
}
