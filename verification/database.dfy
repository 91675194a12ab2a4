/** The `Database` wrapper of app/database.py: a URI and a database name
    read from the environment, a `client` and a `db` that are each either
    unset or set, and the `connect` / `get_collection` / `close` operations
    moving between those states. The driver itself is not modelled: what it
    does when asked is given as a `Driver` value. */
module Database {
  import opened Wrappers

  const DefaultMongoUri: string := "mongodb://localhost:27017/"
  const DefaultDatabaseName: string := "portfolio_db"
  const ProjectsCollection: string := "projects"
  const ContactsCollection: string := "contacts"
  const NotConnected: string := "Database not connected"

  /** A `MongoClient` built from a URI. */
  datatype Client = Client(uri: string)

  /** `client[name]`: a handle on one database. */
  datatype DbHandle = DbHandle(name: string)

  /** `db[name]`: a handle on one collection of one database. */
  datatype CollectionHandle = CollectionHandle(database: string, name: string)

  datatype Database = Database(
    mongoUri: string,
    databaseName: string,
    client: Option<Client>,
    db: Option<DbHandle>)

  /** How the driver answers each step of `connect`: whether `MongoClient(uri)`
      returns instead of raising, whether `client[name]` returns instead of
      raising, and whether `server_info()` reaches a server. */
  datatype Driver = Driver(acceptsUri: bool, acceptsName: bool, serverReachable: bool)

  /** `Database()`: settings from MONGODB_URI and DATABASE_NAME, falling back
      to the local defaults when a variable is absent, and nothing connected. */
  function NewDatabase(envUri: Option<string>, envName: Option<string>): (d: Database)
    ensures d.client.None? && d.db.None?
    ensures envUri.None? ==> d.mongoUri == DefaultMongoUri
    ensures envName.None? ==> d.databaseName == DefaultDatabaseName
    ensures envUri.Some? ==> d.mongoUri == envUri.value
    ensures envName.Some? ==> d.databaseName == envName.value
  {
    Database(envUri.GetOr(DefaultMongoUri), envName.GetOr(DefaultDatabaseName), None, None)
  }

  /** A `db` is only ever set after a `client`, and always names the
      configured database. */
  predicate Coherent(d: Database) {
    d.db.Some? ==> d.client.Some? && d.db.value.name == d.databaseName
  }

  /** `connect()`: it never raises; it returns true only when every step
      succeeded. The fields are assigned one after the other, so a step that
      raises leaves the fields assigned before it in place. */
  function Connect(d: Database, drv: Driver): (r: (Database, bool))
    ensures r.1 <==> drv.acceptsUri && drv.acceptsName && drv.serverReachable
    ensures r.0.mongoUri == d.mongoUri && r.0.databaseName == d.databaseName
    ensures !drv.acceptsUri ==> r.0 == d
    ensures drv.acceptsUri ==> r.0.client == Some(Client(d.mongoUri))
    ensures drv.acceptsUri && drv.acceptsName ==> r.0.db == Some(DbHandle(d.databaseName))
    ensures drv.acceptsUri && !drv.acceptsName ==> r.0.db == d.db
    ensures Coherent(d) ==> Coherent(r.0)
  {
    if !drv.acceptsUri then (d, false)
    else
      var withClient := d.(client := Some(Client(d.mongoUri)));
      if !drv.acceptsName then (withClient, false)
      else
        var withDb := withClient.(db := Some(DbHandle(d.databaseName)));
        (withDb, drv.serverReachable)
  }

  /** `get_collection(name)`: a handle whenever `db` is set, whatever the
      server's state, and "Database not connected" otherwise. */
  function GetCollection(d: Database, name: string): (r: Result<CollectionHandle, string>)
    ensures r.Success? <==> d.db.Some?
    ensures r.Success? ==> r.value.name == name && r.value.database == d.db.value.name
    ensures r.Failure? ==> r.error == NotConnected
  {
    match d.db
    case Some(h) => Success(CollectionHandle(h.name, name))
    case None => Failure(NotConnected)
  }

  /** `close()`: closes the client if there is one, and reports whether it
      did; `client` and `db` keep their values. */
  function Close(d: Database): (r: (Database, bool))
    ensures r.0 == d
    ensures r.1 <==> d.client.Some?
  {
    (d, d.client.Some?)
  }

  function GetProjectsCollection(d: Database): (r: Result<CollectionHandle, string>)
    ensures r.Success? ==> r.value.name == "projects"
    ensures r.Success? <==> d.db.Some?
  {
    GetCollection(d, ProjectsCollection)
  }

  function GetContactsCollection(d: Database): (r: Result<CollectionHandle, string>)
    ensures r.Success? ==> r.value.name == "contacts"
    ensures r.Success? <==> d.db.Some?
  {
    GetCollection(d, ContactsCollection)
  }

  /** Before any `connect`, every collection lookup fails. */
  lemma NotConnectedInitially(envUri: Option<string>, envName: Option<string>, name: string)
    ensures GetCollection(NewDatabase(envUri, envName), name) == Failure(NotConnected)
    ensures Coherent(NewDatabase(envUri, envName))
  {
  }

  /** The subtle path: when the client is built but the server cannot be
      reached, `connect` reports failure, yet `db` is already set, so
      `get_collection` hands out collections anyway. */
  lemma FailedPingStillConnects(d: Database, drv: Driver, name: string)
    requires drv.acceptsUri && drv.acceptsName && !drv.serverReachable
    ensures !Connect(d, drv).1
    ensures GetCollection(Connect(d, drv).0, name).Success?
  {
  }

  /** `close` resets nothing: whatever `get_collection` answered before, it
      answers after; and closing twice closes the same client again. */
  lemma CloseKeepsState(d: Database, name: string)
    ensures GetCollection(Close(d).0, name) == GetCollection(d, name)
    ensures Close(Close(d).0) == Close(d)
    ensures d.client.None? ==> !Close(d).1
  {
  }

  /** A URI the driver refuses on a fresh instance leaves it unconnected:
      every collection lookup still fails. */
  lemma RefusedUriStaysDisconnected(envUri: Option<string>, envName: Option<string>, drv: Driver, name: string)
    requires !drv.acceptsUri
    ensures var r := Connect(NewDatabase(envUri, envName), drv);
      !r.1 && GetCollection(r.0, name) == Failure(NotConnected)
  {
  }
}
