/**
 * Chooses and builds the store for a backend tag. Only the SQLite backend
 * exists; the other known tags are placeholders that fail, and any other tag
 * is refused.
 */
module DatabaseFactory {
  import opened Wrappers
  import opened Records
  import Store = SqliteDatabase

  /** The store configuration plus the backend tag (`type` in the source). */
  datatype FactoryConfig = FactoryConfig(kind: string, filepath: Option<string>, verbose: Option<bool>)

  datatype FactoryError =
    | PostgresNotImplemented
    | MongoNotImplemented
    | MemoryNotImplemented
    | Unsupported(kind: string)
    | StoreFailed(cause: Store.StoreError)

  function Message(e: FactoryError): string {
    match e
    case PostgresNotImplemented => "PostgreSQL support not yet implemented"
    case MongoNotImplemented => "MongoDB support not yet implemented"
    case MemoryNotImplemented => "In-memory database support not yet implemented"
    case Unsupported(kind) => "Unsupported database type: " + kind
    case StoreFailed(cause) => Store.Message(cause)
  }

  /** The part of the factory configuration the store reads. */
  function StoreConfig(config: FactoryConfig): DatabaseConfig {
    DatabaseConfig(config.filepath, config.verbose)
  }

  /** Builds the store the tag names and initializes it over the file whose
      table holds `disk`; only `"sqlite"` can succeed, and then the store is
      open, fresh, and configured from `config`. */
  method Create(config: FactoryConfig, disk: seq<DatabaseTodo>, outcome: Store.OpenOutcome)
    returns (r: Result<Store.SqliteTodoDatabase, FactoryError>)
    requires Store.UniqueIds(disk)
    ensures r.Success? <==> config.kind == "sqlite" && outcome == Store.Opened
    ensures r.Success? ==> && fresh(r.value) && r.value.Valid()
                           && r.value.db == Store.Open && r.value.rows == disk
                           && r.value.filepath == Store.FilepathOf(StoreConfig(config))
                           && r.value.verbose == Store.VerboseOf(StoreConfig(config))
    ensures config.kind == "sqlite" && outcome == Store.CannotOpen ==> r == Failure(StoreFailed(Store.ConnectFailed))
    ensures config.kind == "sqlite" && outcome == Store.CannotCreateTable ==> r == Failure(StoreFailed(Store.CreateTableFailed))
    ensures config.kind == "postgres" ==> r == Failure(PostgresNotImplemented)
    ensures config.kind == "mongodb" ==> r == Failure(MongoNotImplemented)
    ensures config.kind == "memory" ==> r == Failure(MemoryNotImplemented)
    ensures config.kind !in {"sqlite", "postgres", "mongodb", "memory"} ==> r == Failure(Unsupported(config.kind))
  {
    match config.kind
    case "sqlite" =>
      var store := new Store.SqliteTodoDatabase(StoreConfig(config), disk);
      var init := store.Initialize(outcome);
      if init.Fail? {
        return Failure(StoreFailed(init.error));
      }
      r := Success(store);
    case "postgres" =>
      r := Failure(PostgresNotImplemented);
    case "mongodb" =>
      r := Failure(MongoNotImplemented);
    case "memory" =>
      r := Failure(MemoryNotImplemented);
    case _ =>
      r := Failure(Unsupported(config.kind));
  }

  /** The default configuration: SQLite at the default path, verbose exactly
      when the environment's mode (`NODE_ENV`, possibly unset) is development. */
  function GetDefaultConfig(nodeEnv: Option<string>): (c: FactoryConfig)
    ensures c.kind == "sqlite" && c.filepath == Some(Store.DefaultFilepath) && c.verbose.Some?
    ensures c.verbose.value <==> nodeEnv == Some("development")
  {
    FactoryConfig("sqlite", Some(Store.DefaultFilepath), Some(nodeEnv == Some("development")))
  }

  /** A store built from the default configuration opens `./data/todos.db`
      and is verbose exactly in development. */
  lemma DefaultConfigResolution(nodeEnv: Option<string>)
    ensures Store.FilepathOf(StoreConfig(GetDefaultConfig(nodeEnv))) == "./data/todos.db"
    ensures Store.VerboseOf(StoreConfig(GetDefaultConfig(nodeEnv))) <==> nodeEnv == Some("development")
  {
  }

  /** With nothing configured, the store falls back to the default path and is quiet. */
  lemma EmptyConfigResolution()
    ensures Store.FilepathOf(DatabaseConfig(None, None)) == "./data/todos.db"
    ensures !Store.VerboseOf(DatabaseConfig(None, None))
  {
  }
}
