/** The schema and instance bootstrapper (emulate/spanner.go). The admin
    service is modelled by a `Backend` holding the provisioned instances and
    databases; what the service and the local machine answer beyond that
    (faults, timeouts, whether the emulator is already listening) comes from
    an `Environment` record. */
module Spanner {
  import opened Failures
  import opened GoStrings
  import opened Emulate

  const DefaultProject := "test-project"
  const DefaultInstance := "test-instance"
  const DefaultDatabase := "test-database"

  /** Which database to bootstrap and the schema to create it with. */
  datatype Config = Config(project: string, instance: string, database: string, ddl: seq<string>)
  {
    /** The database's resource name. */
    function DB(): (name: string)
      ensures name == DatabaseName(project, instance, database)
    {
      "projects/" + project + "/instances/" + instance + "/databases/" + database
    }
  }

  /** The default names, with no schema. */
  function DefaultConfig(): (c: Config)
    ensures c.project == DefaultProject && c.instance == DefaultInstance
    ensures c.database == DefaultDatabase && c.ddl == []
  {
    Config(DefaultProject, DefaultInstance, DefaultDatabase, [])
  }

  function InstanceParent(project: string): (r: string)
  {
    "projects/" + project
  }

  function InstanceName(project: string, instance: string): (r: string)
  {
    InstanceParent(project) + "/instances/" + instance
  }

  /** The name `ExistsDB` asks the service for. */
  function DatabaseName(project: string, instance: string, database: string): (r: string)
  {
    InstanceName(project, instance) + "/databases/" + database
  }

  /** For identifiers without a slash, the resource name splits back into
      its six segments, so it determines project, instance and database. */
  lemma DBSegments(c: Config)
    requires '/' !in c.project && '/' !in c.instance && '/' !in c.database
    ensures Split(c.DB(), '/') == ["projects", c.project, "instances", c.instance, "databases", c.database]
  {
    NameWords();
    var p := InstanceParent(c.project);
    var i := InstanceName(c.project, c.instance);
    SplitAtSep("projects", '/', c.project);
    SplitWithoutSep(c.project, '/');
    SplitAtWord(p, "instances", c.instance);
    SplitAtWord(i, "databases", c.database);
  }

  /** The fixed words of a resource name, with their slashes. */
  lemma NameWords()
    ensures "projects/" == "projects" + ['/']
    ensures "/instances/" == "/" + "instances" + "/"
    ensures "/databases/" == "/" + "databases" + "/"
    ensures '/' !in "projects" && '/' !in "instances" && '/' !in "databases"
  {
  }

  /** A word between two slashes, then a last segment, adds two pieces. */
  lemma SplitAtWord(x: string, w: string, b: string)
    requires '/' !in w && '/' !in b
    ensures Split(x + ("/" + w + "/") + b, '/') == Split(x, '/') + [w, b]
  {
    assert x + ("/" + w + "/") + b == (x + ['/'] + w) + ['/'] + b;
    SplitAtLastSep(x + ['/'] + w, '/', b);
    SplitAtLastSep(x, '/', w);
  }

  /** Two configurations with slash-free identifiers name the same database
      only if they agree on project, instance and database. */
  lemma DBInjective(c: Config, d: Config)
    requires '/' !in c.project && '/' !in c.instance && '/' !in c.database
    requires '/' !in d.project && '/' !in d.instance && '/' !in d.database
    requires c.DB() == d.DB()
    ensures c.project == d.project && c.instance == d.instance && c.database == d.database
  {
    DBSegments(c);
    DBSegments(d);
  }

  /** The endpoint clients are pointed at: gRPC if set, otherwise REST,
      otherwise empty. It never fails. */
  function Host(e: Emulator): (r: (string, Option<Error>))
    ensures r.1 == None
    ensures e.grpcHost != "" ==> r.0 == e.grpcHost
    ensures e.grpcHost == "" ==> r.0 == e.restHost
  {
    var (grpc, rest) := e.Hosts();
    if grpc != "" then (grpc, None)
    else if rest != "" then (rest, None)
    else ("", None)
  }

  /** Instance existence from the first `Next` of a one-item listing: no
      item means absent, any other failure is returned, an item means present. */
  function ExistsInstance(next: Option<Error>): (r: (bool, Option<Error>))
    ensures next == Some(IteratorDone) ==> r == (false, None)
    ensures next.Some? && next != Some(IteratorDone) ==> r == (false, next)
    ensures next.None? ==> r == (true, None)
  {
    if next.Some? then
      if next.value == IteratorDone then (false, None) else (false, next)
    else (true, None)
  }

  /** Database existence from `GetDatabase`: NotFound means absent, any
      other failure is returned, success means present. */
  function ExistsDB(get: Option<Error>): (r: (bool, Option<Error>))
    ensures ErrCode(get) == NotFound ==> r == (false, None)
    ensures ErrCode(get) != NotFound && get.Some? ==> r == (false, get)
    ensures get.None? ==> r == (true, None)
  {
    if ErrCode(get) == NotFound then (false, None)
    else if get.Some? then (false, get)
    else (true, None)
  }

  /** How a long-running creation ended, as seen within the wait bound. */
  datatype Wait = Completed | Failed(error: Error) | TimedOut

  /** A create call is either refused outright or accepted as an operation
      that is then waited for. */
  datatype Creation = Rejected(error: Error) | Accepted(wait: Wait)

  /** `CreateInstance`'s error: the refusal, the operation's failure, or the
      deadline error when the wait bound passes first. */
  function CreateInstance(o: Creation): (err: Option<Error>)
    ensures err.None? <==> o == Accepted(Completed)
    ensures o.Rejected? ==> err == Some(o.error)
    ensures o == Accepted(TimedOut) ==> err == Some(DeadlineExceeded)
    ensures o.Accepted? && o.wait.Failed? ==> err == Some(o.wait.error)
  {
    match o
    case Rejected(e) => Some(e)
    case Accepted(Completed) => None
    case Accepted(Failed(e)) => Some(e)
    case Accepted(TimedOut) => Some(DeadlineExceeded)
  }

  /** `CreateDB`'s error. As written, the error of the wait (a failed
      operation or the deadline) is computed and then dropped: only a
      refused `CreateDatabase` call is reported. */
  function CreateDB(o: Creation): (err: Option<Error>)
    ensures err.Some? <==> o.Rejected?
    ensures o.Rejected? ==> err == Some(CreatingDatabase(o.error))
  {
    match o
    case Rejected(e) => Some(CreatingDatabase(e))
    case Accepted(_) => None
  }

  /** A request with a side effect, in the order the bootstrapper issues them. */
  datatype Request =
    | StartEmulator(grpcHost: string, restHost: string)
    | CreateInstanceRequest(parent: string, instanceId: string, config: string, nodeCount: int, displayName: string)
    | CreateDatabaseRequest(parent: string, createStatement: string, extraStatements: seq<string>)

  function InstanceRequest(c: Config): (r: Request)
  {
    CreateInstanceRequest(InstanceParent(c.project), c.instance, "emulator-test-config", 1, "Test Instance")
  }

  function DatabaseRequest(c: Config): (r: Request)
  {
    CreateDatabaseRequest(InstanceName(c.project, c.instance), "CREATE DATABASE `" + c.database + "`", c.ddl)
  }

  /** The requests create exactly the resources the existence checks ask for. */
  lemma RequestsNameProbedResources(c: Config)
    ensures InstanceRequest(c).parent + "/instances/" + InstanceRequest(c).instanceId == InstanceName(c.project, c.instance)
    ensures DatabaseRequest(c).parent + "/databases/" + c.database == c.DB()
    ensures DatabaseRequest(c).extraStatements == c.ddl
  {
  }

  /** A client handle; it reaches the endpoint it was created for. */
  datatype Client = Client(endpoint: string)

  /** What the service and the machine answer during one run. */
  datatype Environment = Environment(
    running: bool,                    // something already listens at the endpoint
    instanceClientErr: Option<Error>, // creating the instance admin client
    adminClientErr: Option<Error>,    // creating the database admin client
    listFault: Option<Error>,         // a failure of the instance listing, if any; `Some(IteratorDone)`
                                      // is discarded, "no items" follows from the instances alone
    createInstance: Creation,
    getFault: Option<Error>,          // a failure of GetDatabase, if any; a NotFound-coded value is
                                      // discarded, NotFound follows from the databases alone
    createDatabase: Creation)

  /** The first `Next` of the listing: a fault, else an item if the
      instance is provisioned. "No items" is only ever reported for an
      absent instance. */
  function ListInstancesNext(instances: set<string>, project: string, instance: string, fault: Option<Error>): (r: Option<Error>)
    ensures fault.Some? && fault != Some(IteratorDone) ==> r == fault
    ensures fault.None? || fault == Some(IteratorDone) ==>
      r == (if InstanceName(project, instance) in instances then None else Some(IteratorDone))
  {
    if fault.Some? && fault != Some(IteratorDone) then fault
    else if InstanceName(project, instance) in instances then None
    else Some(IteratorDone)
  }

  /** `GetDatabase`: a fault, else success if the database is provisioned,
      else NotFound. NotFound is only ever reported for an absent database. */
  function GetDatabase(databases: map<string, seq<string>>, name: string, fault: Option<Error>): (r: Option<Error>)
    ensures fault.Some? && ErrCode(fault) != NotFound ==> r == fault
    ensures fault.None? || ErrCode(fault) == NotFound ==>
      (r.None? <==> name in databases) && (r.Some? ==> ErrCode(r) == NotFound)
  {
    if fault.Some? && ErrCode(fault) != NotFound then fault
    else if name in databases then None
    else Some(Status(NotFound, "Database not found: " + name))
  }

  /** The provisioned resources and the bootstrapper's clients. */
  datatype State = State(instances: set<string>, databases: map<string, seq<string>>,
                         instanceClient: Option<Client>, adminClient: Option<Client>)

  datatype Outcome = Outcome(state: State, trace: seq<Request>, err: Option<Error>)

  /** The whole of one `Run`. It only ever adds resources: no instance or
      database disappears and no existing schema is rewritten. The emulator
      is started exactly when nothing listens at the endpoint, and that
      start is the first request. */
  function RunSpec(c: Config, e: Emulator, st: State, env: Environment): (o: Outcome)
    ensures st.instances <= o.state.instances <= st.instances + {InstanceName(c.project, c.instance)}
    ensures st.databases.Keys <= o.state.databases.Keys <= st.databases.Keys + {c.DB()}
    ensures forall n :: n in st.databases ==> o.state.databases[n] == st.databases[n]
    ensures !env.running <==> |o.trace| > 0 && o.trace[0] == StartEmulator(e.grpcHost, e.restHost)
  {
    var host := Host(e).0;
    var started := if env.running then [] else [StartEmulator(e.grpcHost, e.restHost)];
    var startErr := if env.running then None else e.Run().err;
    if startErr.Some? then Outcome(st, started, startErr)
    else if env.instanceClientErr.Some? then
      Outcome(st.(instanceClient := None), started, env.instanceClientErr)
    else if env.adminClientErr.Some? then
      Outcome(st.(instanceClient := Some(Client(host)), adminClient := None), started, env.adminClientErr)
    else
      Provision(c, st.(instanceClient := Some(Client(host)), adminClient := Some(Client(host))), env, started)
  }

  /** The decision skeleton once both clients exist: create the instance if
      it is absent, then the database if it is absent; stop at the first error. */
  function Provision(c: Config, st: State, env: Environment, trace: seq<Request>): (o: Outcome)
    ensures |trace| <= |o.trace| && o.trace[..|trace|] == trace
    ensures o.state.instanceClient == st.instanceClient && o.state.adminClient == st.adminClient
    ensures st.instances <= o.state.instances <= st.instances + {InstanceName(c.project, c.instance)}
    ensures st.databases.Keys <= o.state.databases.Keys <= st.databases.Keys + {c.DB()}
    ensures forall n :: n in st.databases ==> o.state.databases[n] == st.databases[n]
    ensures forall k :: |trace| <= k < |o.trace| ==> !o.trace[k].StartEmulator?
  {
    var (instanceExists, instanceErr) := ExistsInstance(ListInstancesNext(st.instances, c.project, c.instance, env.listFault));
    if instanceErr.Some? then Outcome(st, trace, instanceErr)
    else
      var createErr := if instanceExists then None else CreateInstance(env.createInstance);
      var st1 := if !instanceExists && createErr.None? then st.(instances := st.instances + {InstanceName(c.project, c.instance)}) else st;
      var trace1 := if instanceExists then trace else trace + [InstanceRequest(c)];
      if createErr.Some? then Outcome(st1, trace1, createErr)
      else
        var (dbExists, dbErr) := ExistsDB(GetDatabase(st1.databases, DatabaseName(c.project, c.instance, c.database), env.getFault));
        if dbErr.Some? then Outcome(st1, trace1, dbErr)
        else if dbExists then Outcome(st1, trace1, None)
        else
          var st2 := if env.createDatabase == Accepted(Completed) then st1.(databases := st1.databases[DatabaseName(c.project, c.instance, c.database) := c.ddl]) else st1;
          Outcome(st2, trace1 + [DatabaseRequest(c)], CreateDB(env.createDatabase))
  }

  predicate CreatesInstance(trace: seq<Request>)
  {
    exists k :: 0 <= k < |trace| && trace[k].CreateInstanceRequest?
  }

  predicate CreatesDatabase(trace: seq<Request>)
  {
    exists k :: 0 <= k < |trace| && trace[k].CreateDatabaseRequest?
  }

  /** The emulator is reachable or starts, and both clients can be made. */
  predicate Reaches(e: Emulator, env: Environment)
  {
    (env.running || e.Run().err.None?) && env.instanceClientErr.None? && env.adminClientErr.None?
  }

  /** Reached, and neither existence check fails. */
  predicate Healthy(e: Emulator, env: Environment)
  {
    Reaches(e, env) && env.listFault.None? && env.getFault.None?
  }

  /** Reaching the checks fixes the trace prefix and the clients. */
  lemma RunReachesProvision(c: Config, e: Emulator, st: State, env: Environment)
    requires Reaches(e, env)
    ensures RunSpec(c, e, st, env) ==
      Provision(c, st.(instanceClient := Some(Client(Host(e).0)), adminClient := Some(Client(Host(e).0))), env,
                if env.running then [] else [StartEmulator(e.grpcHost, e.restHost)])
  {
  }

  /** Before the checks no create is issued and nothing is provisioned. */
  lemma {:induction false} RunStopsBeforeChecks(c: Config, e: Emulator, st: State, env: Environment)
    requires !Reaches(e, env)
    ensures var o := RunSpec(c, e, st, env);
      o.err.Some? && !CreatesInstance(o.trace) && !CreatesDatabase(o.trace) &&
      o.state.instances == st.instances && o.state.databases == st.databases
    ensures var o := RunSpec(c, e, st, env);
      var client := Some(Client(Host(e).0));
      if !env.running && e.Run().err.Some? then o.state == st
      else if env.instanceClientErr.Some? then o.state == st.(instanceClient := None)
      else o.state == st.(instanceClient := client, adminClient := None)
  {
    var o := RunSpec(c, e, st, env);
    assert forall k :: 0 <= k < |o.trace| ==> o.trace[k].StartEmulator?;
  }

  /** A create is issued only for a resource its existence check reported
      absent, and the database only once the instance is known to exist. */
  lemma {:induction false} CreatesOnlyWhenAbsent(c: Config, st: State, env: Environment, trace: seq<Request>)
    requires forall k :: 0 <= k < |trace| ==> trace[k].StartEmulator?
    ensures var o := Provision(c, st, env, trace);
      (CreatesInstance(o.trace) ==>
         ExistsInstance(ListInstancesNext(st.instances, c.project, c.instance, env.listFault)) == (false, None)) &&
      (CreatesDatabase(o.trace) ==>
         ExistsDB(GetDatabase(st.databases, c.DB(), env.getFault)) == (false, None) &&
         (InstanceName(c.project, c.instance) in st.instances || env.createInstance == Accepted(Completed)))
  {
    var o := Provision(c, st, env, trace);
    var (instanceExists, instanceErr) := ExistsInstance(ListInstancesNext(st.instances, c.project, c.instance, env.listFault));
    if instanceErr.Some? || instanceExists {
      assert !CreatesInstance(o.trace) by {
        assert forall k :: 0 <= k < |o.trace| ==> !o.trace[k].CreateInstanceRequest?;
      }
    }
    if !CreatesDatabase(o.trace) {
    } else {
      assert o.trace == trace + (if instanceExists then [] else [InstanceRequest(c)]) + [DatabaseRequest(c)];
    }
  }

  /** A failing instance listing stops the run: nothing created, nothing changed. */
  lemma InstanceCheckErrorAborts(c: Config, st: State, env: Environment, trace: seq<Request>)
    requires env.listFault.Some? && env.listFault != Some(IteratorDone)
    ensures Provision(c, st, env, trace) == Outcome(st, trace, env.listFault)
  {
  }

  /** A failing instance creation stops the run before the database is looked at. */
  lemma InstanceCreateErrorAborts(c: Config, st: State, env: Environment, trace: seq<Request>)
    requires ExistsInstance(ListInstancesNext(st.instances, c.project, c.instance, env.listFault)) == (false, None)
    requires CreateInstance(env.createInstance).Some?
    ensures Provision(c, st, env, trace) == Outcome(st, trace + [InstanceRequest(c)], CreateInstance(env.createInstance))
  {
  }

  /** A failing database lookup stops the run before any database is created. */
  lemma DatabaseCheckErrorAborts(c: Config, st: State, env: Environment, trace: seq<Request>)
    requires ExistsInstance(ListInstancesNext(st.instances, c.project, c.instance, env.listFault)).1.None?
    requires InstanceName(c.project, c.instance) in st.instances || env.createInstance == Accepted(Completed)
    requires env.getFault.Some? && ErrCode(env.getFault) != NotFound
    ensures var o := Provision(c, st, env, trace);
      o.err == env.getFault && o.state.databases == st.databases &&
      o.state.instances == st.instances + {InstanceName(c.project, c.instance)} &&
      (o.trace == trace || o.trace == trace + [InstanceRequest(c)])
  {
  }

  /** A run that reports an error has provisioned no database. */
  lemma ErrorProvisionsNoDatabase(c: Config, e: Emulator, st: State, env: Environment)
    ensures var o := RunSpec(c, e, st, env);
      o.err.Some? ==> o.state.databases == st.databases
  {
  }

  /** A run that reports success leaves the instance provisioned and the
      database provisioned with the configured schema, unless the wait for
      the database's creation failed or timed out (an error `CreateDB` drops). */
  lemma SuccessProvisions(c: Config, e: Emulator, st: State, env: Environment)
    ensures var o := RunSpec(c, e, st, env);
      o.err.None? ==>
        InstanceName(c.project, c.instance) in o.state.instances &&
        o.state.instanceClient == Some(Client(Host(e).0)) && o.state.adminClient == Some(Client(Host(e).0)) &&
        (c.DB() in o.state.databases ||
         (CreatesDatabase(o.trace) && env.createDatabase.Accepted? && env.createDatabase.wait != Completed)) &&
        (c.DB() !in st.databases && c.DB() in o.state.databases ==> o.state.databases[c.DB()] == c.ddl)
  {
    var o := RunSpec(c, e, st, env);
    if o.err.None? && c.DB() !in o.state.databases {
      assert o.trace[|o.trace| - 1] == DatabaseRequest(c);
    }
  }

  /** Against a provisioned instance and database a run creates nothing and
      leaves the provisioned instances and databases as they were, whatever
      the environment; it succeeds when the environment is healthy. */
  lemma {:induction false} RerunCreatesNothing(c: Config, e: Emulator, st: State, env: Environment)
    requires InstanceName(c.project, c.instance) in st.instances && c.DB() in st.databases
    ensures var o := RunSpec(c, e, st, env);
      !CreatesInstance(o.trace) && !CreatesDatabase(o.trace) &&
      o.state.instances == st.instances && o.state.databases == st.databases &&
      (Healthy(e, env) ==>
         o.err.None? && o.state.instanceClient == Some(Client(Host(e).0)) &&
         o.state.adminClient == Some(Client(Host(e).0)))
  {
    var o := RunSpec(c, e, st, env);
    assert forall k :: 0 <= k < |o.trace| ==> o.trace[k].StartEmulator?;
  }

  /** Running twice: when the first run succeeded and its database wait (if
      any) completed, the second run creates nothing, leaves the instances
      and databases (schemas included) as the first run left them, and
      succeeds in a healthy environment. */
  lemma {:induction false} BootstrapIdempotent(c: Config, e: Emulator, st: State, env1: Environment, env2: Environment)
    requires RunSpec(c, e, st, env1).err.None?
    requires CreatesDatabase(RunSpec(c, e, st, env1).trace) ==> env1.createDatabase == Accepted(Completed)
    ensures var o1 := RunSpec(c, e, st, env1);
      var o2 := RunSpec(c, e, o1.state, env2);
      !CreatesInstance(o2.trace) && !CreatesDatabase(o2.trace) &&
      o2.state.instances == o1.state.instances && o2.state.databases == o1.state.databases &&
      (Healthy(e, env2) ==> o2.err.None?)
  {
    var o1 := RunSpec(c, e, st, env1);
    SuccessProvisions(c, e, st, env1);
    RerunCreatesNothing(c, e, o1.state, env2);
  }

  /** The dropped wait error: with the instance in place and the database
      absent, a database creation whose operation fails or times out is
      reported as success, the database is still absent, and the next run
      issues the create again. */
  lemma {:induction false} DroppedWaitError(c: Config, e: Emulator, st: State, env: Environment)
    requires Healthy(e, env)
    requires InstanceName(c.project, c.instance) in st.instances && c.DB() !in st.databases
    requires env.createDatabase.Accepted? && env.createDatabase.wait != Completed
    ensures var o := RunSpec(c, e, st, env);
      o.err.None? && CreatesDatabase(o.trace) && c.DB() !in o.state.databases &&
      CreatesDatabase(RunSpec(c, e, o.state, env).trace)
  {
    var o := RunSpec(c, e, st, env);
    var started := if env.running then [] else [StartEmulator(e.grpcHost, e.restHost)];
    assert o.trace == started + [DatabaseRequest(c)];
    assert o.trace[|o.trace| - 1].CreateDatabaseRequest?;
    var o' := RunSpec(c, e, o.state, env);
    assert o'.trace == started + [DatabaseRequest(c)];
    assert o'.trace[|o'.trace| - 1].CreateDatabaseRequest?;
  }

  /** From nothing, a healthy run whose operations complete creates the
      instance and then the database with the schema, and succeeds. */
  lemma FreshBootstrap(c: Config, e: Emulator, st: State, env: Environment)
    requires Healthy(e, env)
    requires st.instances == {} && st.databases == map[]
    requires env.createInstance == Accepted(Completed) && env.createDatabase == Accepted(Completed)
    ensures var o := RunSpec(c, e, st, env);
      var started := if env.running then [] else [StartEmulator(e.grpcHost, e.restHost)];
      o.err.None? && o.trace == started + [InstanceRequest(c), DatabaseRequest(c)] &&
      o.state.instances == {InstanceName(c.project, c.instance)} && o.state.databases == map[c.DB() := c.ddl]
  {
  }

  /** A statement as the schema loader hands them on. */
  predicate IsStatement(s: string)
  {
    s != [] && IsTrimmed(s) && ';' !in s
  }

  /** `f` applied to every piece, in order. */
  function MapAll(f: string -> string, pieces: seq<string>): (r: seq<string>)
  {
    seq(|pieces|, i requires 0 <= i < |pieces| => f(pieces[i]))
  }

  /** Every split piece with its white space trimmed, in order. */
  function TrimAll(pieces: seq<string>): (r: seq<string>)
  {
    MapAll(TrimSpace, pieces)
  }

  /** The non-empty strings of `ts`, in order. */
  function NonEmpty(ts: seq<string>): (r: seq<string>)
  {
    if ts == [] then []
    else NonEmpty(ts[..|ts| - 1]) + (if ts[|ts| - 1] == [] then [] else [ts[|ts| - 1]])
  }

  /** The statements a list of split pieces yields: trimmed, blanks dropped. */
  function Statements(pieces: seq<string>): (r: seq<string>)
  {
    NonEmpty(TrimAll(pieces))
  }

  /** `ParseDDL`: splits a schema on `;`, trims each piece and keeps the
      non-empty ones in their order. */
  method ParseDDL(data: string) returns (ddl: seq<string>)
    ensures ddl == Statements(Split(data, ';'))
    ensures forall i :: 0 <= i < |ddl| ==> IsStatement(ddl[i])
  {
    var statements := Split(data, ';');
    ghost var trimmed := TrimAll(statements);
    ddl := [];
    for k := 0 to |statements|
      invariant ddl == NonEmpty(trimmed[..k])
      invariant forall i :: 0 <= i < |ddl| ==> IsStatement(ddl[i])
    {
      var t := TrimSpace(statements[k]);
      TrimmedPiece(statements[k]);
      NonEmptySnoc(trimmed, k);
      if t != [] {
        StatementsSnoc(ddl, t);
        ddl := ddl + [t];
      }
    }
    assert trimmed[..|statements|] == trimmed;
  }

  /** A trimmed piece of a split on `;` is blank or a statement. */
  lemma TrimmedPiece(piece: string)
    requires ';' !in piece
    ensures TrimSpace(piece) == [] || IsStatement(TrimSpace(piece))
  {
    TrimSpaceKeepsOut(piece, ';');
  }

  lemma StatementsSnoc(ddl: seq<string>, t: string)
    requires forall i :: 0 <= i < |ddl| ==> IsStatement(ddl[i])
    requires IsStatement(t)
    ensures forall i :: 0 <= i < |ddl + [t]| ==> IsStatement((ddl + [t])[i])
  {
    forall i | 0 <= i < |ddl + [t]| ensures IsStatement((ddl + [t])[i]) {
      if i < |ddl| {
        assert (ddl + [t])[i] == ddl[i];
      }
    }
  }

  lemma NonEmptySnoc(ts: seq<string>, k: nat)
    requires k < |ts|
    ensures NonEmpty(ts[..k + 1]) == NonEmpty(ts[..k]) + (if ts[k] == [] then [] else [ts[k]])
  {
    assert ts[..k + 1][..k] == ts[..k];
  }

  lemma {:induction false} NonEmptyAppend(a: seq<string>, b: seq<string>)
    ensures NonEmpty(a + b) == NonEmpty(a) + NonEmpty(b)
  {
    if b == [] {
      assert a + b == a;
    } else {
      var b' := b[..|b| - 1];
      assert (a + b)[..|a + b| - 1] == a + b';
      NonEmptyAppend(a, b');
    }
  }

  /** Parsing two runs of pieces one after the other gives the two results
      one after the other. */
  lemma StatementsAppend(a: seq<string>, b: seq<string>)
    ensures Statements(a + b) == Statements(a) + Statements(b)
  {
    MapAllAppend(TrimSpace, a, b);
    NonEmptyAppend(TrimAll(a), TrimAll(b));
  }

  lemma MapAllAppend(f: string -> string, a: seq<string>, b: seq<string>)
    ensures MapAll(f, a + b) == MapAll(f, a) + MapAll(f, b)
  {
    var l, r := MapAll(f, a + b), MapAll(f, a) + MapAll(f, b);
    forall i | 0 <= i < |l| ensures l[i] == r[i] {
      if i < |a| {
        assert (a + b)[i] == a[i];
      } else {
        assert (a + b)[i] == b[i - |a|];
      }
    }
  }

  /** The statements of a single piece: its trimmed text, unless blank. */
  lemma StatementsOne(p: string)
    ensures Statements([p]) == if TrimSpace(p) == [] then [] else [TrimSpace(p)]
  {
    MapAllOne(TrimSpace, p);
    NonEmptyOne(TrimSpace(p));
  }

  lemma MapAllOne(f: string -> string, p: string)
    ensures MapAll(f, [p]) == [f(p)]
  {
  }

  lemma NonEmptyOne(t: string)
    ensures NonEmpty([t]) == if t == [] then [] else [t]
  {
    assert [t][..0] == [];
  }

  /** Statements joined with `;` and a blank line end `nl`, after leading
      blanks `t`, parse back to themselves. */
  lemma {:induction false} ParseJoinedAfter(t: string, xs: seq<string>, nl: string)
    requires AllSpace(t) && ';' !in t && AllSpace(nl) && ';' !in nl
    requires |xs| > 0 && forall i :: 0 <= i < |xs| ==> IsStatement(xs[i])
    ensures Statements(Split(t + Join(xs, [';'] + nl), ';')) == xs
    decreases |xs|
  {
    if |xs| == 1 {
      ParseOnePiece(t, xs[0]);
    } else {
      var rest := Join(xs[1..], [';'] + nl);
      JoinStep(t, xs, nl);
      SplitAtSep(t + xs[0], ';', nl + rest);
      ParseJoinedAfter(nl, xs[1..], nl);
      StatementsAppend([t + xs[0]], Split(nl + rest, ';'));
      ParseOnePiece(t, xs[0]);
      assert xs == [xs[0]] + xs[1..];
    }
  }

  lemma JoinStep(t: string, xs: seq<string>, nl: string)
    requires |xs| > 1
    ensures t + Join(xs, [';'] + nl) == (t + xs[0]) + [';'] + (nl + Join(xs[1..], [';'] + nl))
  {
    var rest := Join(xs[1..], [';'] + nl);
    assert Join(xs, [';'] + nl) == xs[0] + ([';'] + nl) + rest;
  }

  /** Leading blanks before one statement: the piece yields that statement. */
  lemma ParseOnePiece(t: string, x: string)
    requires AllSpace(t) && ';' !in t && IsStatement(x)
    ensures Statements(Split(t + x, ';')) == [x] && Statements([t + x]) == [x]
  {
    assert ';' !in t + x;
    SplitWithoutSep(t + x, ';');
    TrimSpaceAfterSpaces(t, x);
    StatementsOne(t + x);
  }

  /** Statements joined with `;` and a blank line end `nl` parse back to
      themselves. */
  lemma ParseJoined(xs: seq<string>, nl: string)
    requires AllSpace(nl) && ';' !in nl
    requires forall i :: 0 <= i < |xs| ==> IsStatement(xs[i])
    ensures Statements(Split(Join(xs, [';'] + nl), ';')) == xs
  {
    if xs == [] {
      StatementsOne([]);
    } else {
      ParseJoinedAfter([], xs, nl);
      assert [] + Join(xs, [';'] + nl) == Join(xs, [';'] + nl);
    }
  }

  /** Round trip: the schema list joined with ";\n", as the demo program
      builds it, parses back to the same list. */
  lemma ParseDDLJoin(xs: seq<string>, sep: string)
    requires sep == ";\n"
    requires forall i :: 0 <= i < |xs| ==> IsStatement(xs[i])
    ensures Statements(Split(Join(xs, sep), ';')) == xs
  {
    var nl := sep[1..];
    assert sep == [';'] + nl;
    assert nl == "\n";
    ParseJoined(xs, nl);
  }

  /** A blank schema holds no statements. */
  lemma BlankSchema(data: string)
    requires AllSpace(data)
    ensures Statements(Split(data, ';')) == []
  {
    assert !IsSpace(';');
    assert forall k :: 0 <= k < |data| ==> data[k] != ';';
    SplitWithoutSep(data, ';');
    StatementsOne(data);
  }

  /** A blank piece anywhere among the pieces contributes no statement. */
  lemma DropBlankPiece(ps: seq<string>, b: string, qs: seq<string>)
    requires AllSpace(b)
    ensures Statements(ps + [b] + qs) == Statements(ps + qs)
  {
    StatementsAppend(ps + [b], qs);
    StatementsAppend(ps, [b]);
    StatementsAppend(ps, qs);
    StatementsOne(b);
  }

  /** The shape `a;sp;b;`: the blank middle piece and the empty last piece
      are dropped. */
  lemma BlankPiecesDropped(a: string, sp: string, b: string)
    requires IsStatement(a) && IsStatement(b) && AllSpace(sp) && ';' !in sp
    ensures Statements(Split(a + [';'] + sp + [';'] + b + [';'], ';')) == [a, b]
  {
    SplitThree(a, sp, b);
    TrimSpaceOfTrimmed(a);
    TrimSpaceOfTrimmed(b);
    assert TrimSpace(sp) == [];
    assert TrimSpace([]) == [];
    MapAllFour(TrimSpace, a, sp, b, []);
    NonEmptyOfFour(a, b);
  }

  lemma MapAllFour(f: string -> string, p: string, q: string, r: string, t: string)
    ensures MapAll(f, [p, q, r, t]) == [f(p), f(q), f(r), f(t)]
  {
  }

  lemma NonEmptyOfFour(a: string, b: string)
    requires a != [] && b != []
    ensures NonEmpty([a, [], b, []]) == [a, b]
  {
    assert [a][..0] == [];
    assert NonEmpty([a]) == [a];
    assert [a, []][..1] == [a];
    assert NonEmpty([a, []]) == [a];
    assert [a, [], b][..2] == [a, []];
    assert NonEmpty([a, [], b]) == [a, b];
    assert [a, [], b, []][..3] == [a, [], b];
  }

  lemma SplitThree(a: string, sp: string, b: string)
    requires ';' !in a && ';' !in sp && ';' !in b
    ensures Split(a + [';'] + sp + [';'] + b + [';'], ';') == [a, sp, b, []]
  {
    var tail := b + [';'] + [];
    assert a + [';'] + sp + [';'] + b + [';'] == a + [';'] + (sp + [';'] + tail);
    SplitAtSep(a, ';', sp + [';'] + tail);
    SplitAtSep(sp, ';', tail);
    SplitAtSep(b, ';', []);
  }

  /** `"A; ;B;"` gives `["A", "B"]`. */
  lemma ParseDDLExample(data: string)
    requires data == "A; ;B;"
    ensures Statements(Split(data, ';')) == ["A", "B"]
  {
    assert data == "A" + [';'] + " " + [';'] + "B" + [';'];
    BlankPiecesDropped("A", " ", "B");
  }

  /** The admin service's provisioned resources: instance names, and each
      database's name with the schema it was created with. */
  class Backend {
    var instances: set<string>
    var databases: map<string, seq<string>>

  }

  /** The bootstrapper: its configuration, its emulator and the two admin
      clients `Run` creates. */
  class Spanner {
    const cfg: Config
    const emulator: Emulator
    var instance: Option<Client>
    var admin: Option<Client>

    constructor New(cfg: Config, emulator: Emulator)
      ensures this.cfg == cfg && this.emulator == emulator
      ensures instance == None && admin == None
    {
      this.cfg := cfg;
      this.emulator := emulator;
      instance := None;
      admin := None;
    }

    /** Starts the emulator unless it already listens, creates both admin
        clients and then the instance and the database where absent. */
    method Run(backend: Backend, env: Environment) returns (err: Option<Error>, ghost trace: seq<Request>)
      modifies this, backend
      ensures var o := RunSpec(cfg, emulator, State(old(backend.instances), old(backend.databases), old(instance), old(admin)), env);
        err == o.err && trace == o.trace &&
        State(backend.instances, backend.databases, instance, admin) == o.state
    {
      var (host, _) := Host(emulator);
      trace := [];
      if !env.running {
        trace := [StartEmulator(emulator.grpcHost, emulator.restHost)];
        var started := emulator.Run();
        if started.err.Some? {
          return started.err, trace;
        }
      }
      if env.instanceClientErr.Some? {
        instance := None;
        return env.instanceClientErr, trace;
      }
      instance := Some(Client(host));
      if env.adminClientErr.Some? {
        admin := None;
        return env.adminClientErr, trace;
      }
      admin := Some(Client(host));

      var (instanceExists, instanceErr) := ExistsInstance(ListInstancesNext(backend.instances, cfg.project, cfg.instance, env.listFault));
      if instanceErr.Some? {
        return instanceErr, trace;
      }
      if !instanceExists {
        trace := trace + [InstanceRequest(cfg)];
        err := CreateInstance(env.createInstance);
        if err.Some? {
          return err, trace;
        }
        backend.instances := backend.instances + {InstanceName(cfg.project, cfg.instance)};
      }

      var (dbExists, dbErr) := ExistsDB(GetDatabase(backend.databases, DatabaseName(cfg.project, cfg.instance, cfg.database), env.getFault));
      if dbErr.Some? {
        return dbErr, trace;
      }
      if !dbExists {
        trace := trace + [DatabaseRequest(cfg)];
        if env.createDatabase == Accepted(Completed) {
          backend.databases := backend.databases[DatabaseName(cfg.project, cfg.instance, cfg.database) := cfg.ddl];
        }
        return CreateDB(env.createDatabase), trace;
      }
      return None, trace;
    }

    /** Stops the emulator through its closer. */
    function Close(): (e: Effect)
      ensures e == emulator.Close()
    {
      emulator.Close()
    }
  }
}
