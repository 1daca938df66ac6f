# Spanner emulator harness — a Dafny model

This project models the deterministic core of a small Go harness that
starts a local Cloud Spanner emulator in Docker, makes sure an instance and
a database exist in it (creating them with a schema when absent), and
splits a schema text into DDL statements.

Modules, one per source file or component:

- `Failures` (`failures.dfy`): Go's nil-or-error values as `Option<Error>`,
  `(value, error)` pairs as `Result`, and `ErrCode`, the gRPC status code of an error.
- `GoStrings` (`go_strings.dfy`): Go's `strings.Split` (one-character
  separator; always one piece more than there are separators, so `""`
  splits into `[""]`), `strings.Join` and `strings.TrimSpace` with
  `unicode.IsSpace`'s white space, with the split/join inverse lemmas.
- `Emulate` (`emulate.dfy`, for `emulate/emulate.go`): `Port`, the
  `docker run` / `docker kill` / `docker rm` command lines and the
  `Emulator` facade. Starting a process is not modelled: a runner or
  closer returns an `Effect`, the commands it started plus its error, and
  each command's exit status comes from an `exec` oracle.
- `Spanner` (`spanner.dfy`, for `emulate/spanner.go`): `Config.DB`, `host`,
  the existence classifications, the create results, `ParseDDL` (a method
  with the source's loop, proved against `Statements(Split(data, ';'))`),
  and the bootstrapper `Spanner.Run` as a class method. `Run` updates the
  bootstrapper's two client fields and a `Backend` object that stands for
  the admin service: its set of provisioned instance names and its map
  from database name to the schema the database was created with. What
  the service answers beyond that state comes from an `Environment`
  record: whether the emulator is already listening, client-construction
  errors, listing and lookup faults, and how each create call and its
  wait end. `Run` is proved equal to the function `RunSpec`, and the
  bootstrap properties are lemmas about `RunSpec`.

Behaviour of the code that the model keeps as written:

- `Port` makes no numeric check (emulate/emulate.go:36): it returns the
  text after the first `:` up to the next one, so `"host:"` gives the
  empty port.
- `CreateDB` computes the wait error and then returns nil
  (emulate/spanner.go:199-207), so only a refused `CreateDatabase` call is
  reported to the caller. `DroppedWaitError` shows the result: such a run
  reports success, the database is still absent, and the next run creates
  it again.
- `host` never returns an error (emulate/spanner.go:63-72), so the error
  check after it in `Run` (emulate/spanner.go:77-79) can never fire, and the
  model has no branch for it.

## Model

| member | source | states |
|---|---|---|
| `Failures.ErrCode` | emulate/spanner.go:217 | A nil error has code OK. A status error has its own code. NotFound comes only from a status error. |
| `GoStrings.IsSpace` | emulate/spanner.go:233 | The white space `strings.TrimSpace` removes: the characters `unicode.IsSpace` accepts (`\t \n \v \f \r`, space, U+0085, U+00A0, U+1680, U+2000 to U+200A, U+2028, U+2029, U+202F, U+205F, U+3000). |
| `GoStrings.Split` | emulate/spanner.go:230 | There is always at least one piece. There is exactly one piece iff the separator does not occur. No piece contains the separator. |
| `GoStrings.SplitCount` | emulate/spanner.go:230 | There are exactly count(separator) + 1 pieces. |
| `GoStrings.JoinSplit` | emulate/spanner.go:230 | Joining the pieces with the separator gives back the input. |
| `GoStrings.SplitAtLastSep` | emulate/spanner.go:230 | A separator followed by separator-free text adds that text as one last piece. |
| `GoStrings.Join` | main.go:19 | `strings.Join`: a single piece is returned as is; with `SplitJoin` and `JoinSplit` it is the inverse of `Split`. |
| `GoStrings.SplitJoin` | emulate/spanner.go:230 | Splitting a join of a non-empty list of separator-free pieces gives back the pieces (an empty list comes back as `[""]`). |
| `GoStrings.TrimSpace` | emulate/spanner.go:233 | The result starts and ends with non-space. It is the infix of the input left after removing only white space at both ends. It is empty iff the input is all white space. |
| `GoStrings.TrimSpaceKeepsOut` | emulate/spanner.go:233 | Trimming adds no character, so a `;`-free piece stays `;`-free. |
| `GoStrings.TrimSpaceOfTrimmed` | emulate/spanner.go:233 | Trimming an already trimmed string changes nothing. |
| `GoStrings.TrimSpaceAfterSpaces` | emulate/spanner.go:233 | Leading white space before a trimmed string is all that trimming removes. |
| `Emulate.Port` | emulate/emulate.go:31-37 | Errors (with the host in the error) exactly when the host has no `:`. Otherwise returns a colon-free port. |
| `Emulate.PortAfterFirstColon` | emulate/emulate.go:32-36 | The port is the text between the first `:` and the next `:` or the end. |
| `Emulate.PortShape` | emulate/emulate.go:32-36 | Every host containing `:` has that shape, so the previous row covers all such hosts. |
| `Emulate.PortRoundTrip` | emulate/emulate.go:31-37 | For colon-free h and p, `Port(h + ":" + p)` is p. |
| `Emulate.RunArgs` | emulate/emulate.go:82-86 | The nine `docker run` arguments: detached, the container name, each port published on the same host port, then the image. `DockerRunPublishesPorts` reads the ports back. |
| `Emulate.Docker.Run` | emulate/emulate.go:73-89 | A bad gRPC host gives its port error and starts nothing. Otherwise a bad REST host does the same. With two valid hosts, exactly one `docker` command runs with the nine arguments `run -d --name N -p g:g -p r:r IMAGE`, and its status is the result. |
| `Emulate.DockerRunStarts` | emulate/emulate.go:82-88 | When both ports parse, the effect is that single command and its status. |
| `Emulate.DockerRunPublishesPorts` | emulate/emulate.go:82-86 | Each `-p` argument reads back, through `Port`, as the port of its own host string. |
| `Emulate.Docker.Close` | emulate/emulate.go:91-104 | Runs `docker kill N` and then `docker rm N`, and always returns nil whatever their statuses. |
| `Emulate.Emulator.Hosts` | emulate/emulate.go:54-56 | Returns the stored gRPC and REST endpoints unchanged, gRPC first. |
| `Emulate.Emulator.Run` | emulate/emulate.go:58-60 | Calls the runner with the gRPC endpoint and then the REST endpoint. |
| `Emulate.Emulator.Close` | emulate/emulate.go:62-64 | Forwards to the closer. |
| `Emulate.DefaultEmulator` | emulate/emulate.go:40-45 | The default emulator: the runner and closer of `DefaultDocker` (the `spanner-emulator` container of the emulator image, emulate/emulate.go:66) given the command oracle, on `localhost:9010` and `localhost:9020`. Its behaviour is stated by the four `Default…` lemmas below. |
| `Emulate.LocalhostPort` | emulate/emulate.go:12-13 | `localhost:P` has port P, for any colon-free P. |
| `Emulate.DefaultGRPCPort` | emulate/emulate.go:40-45 | The default emulator runs the default Docker runner on its hosts, and its gRPC host has port 9010. |
| `Emulate.DefaultRestPort` | emulate/emulate.go:40-45 | The default emulator's REST host has port 9020. |
| `Emulate.DefaultEmulatorRun` | emulate/emulate.go:40-45 | Starting the default emulator runs one `docker run` that publishes 9010:9010 and 9020:9020 for the `spanner-emulator` container of the emulator image. |
| `Emulate.DefaultEmulatorClose` | emulate/emulate.go:40-45 | Stopping the default emulator kills and then removes `spanner-emulator`, and never fails. |
| `Spanner.Config.DB` | emulate/spanner.go:44-46 | The resource name is `projects/P/instances/I/databases/D`, the same name `ExistsDB` asks for. |
| `Spanner.DefaultConfig` | emulate/spanner.go:29-35 | The default project, instance and database names, with no DDL. |
| `Spanner.DBSegments` | emulate/spanner.go:44-46 | For slash-free ids, the name splits on `/` into its six segments. |
| `Spanner.DBInjective` | emulate/spanner.go:44-46 | Configurations with slash-free ids share a database name only when project, instance and database all agree. |
| `Spanner.Host` | emulate/spanner.go:63-72 | Returns gRPC when non-empty, else REST (empty only when both are empty), and never an error. |
| `Spanner.ExistsInstance` | emulate/spanner.go:160-175 | No items gives (false, nil). Any other listing error gives (false, err). An item gives (true, nil). |
| `Spanner.ExistsDB` | emulate/spanner.go:211-226 | NotFound gives (false, nil). Any other error gives (false, err). Success gives (true, nil). |
| `Spanner.CreateInstance` | emulate/spanner.go:128-158 | nil iff the call is accepted and the wait completes. A refusal or an operation failure is returned as is. A timeout gives the deadline error. |
| `Spanner.CreateDB` | emulate/spanner.go:178-208 | Errors iff the `CreateDatabase` call is refused, wrapped as "creating database". Wait failures and timeouts are dropped. |
| `Spanner.InstanceRequest` | emulate/spanner.go:129-137 | The instance request: parent `projects/P`, id I, config `emulator-test-config`, one node, display name `Test Instance`. `RequestsNameProbedResources` ties it to the name the listing asks for. |
| `Spanner.DatabaseRequest` | emulate/spanner.go:179-183 | The database request: parent `projects/P/instances/I`, statement ``CREATE DATABASE `D` ``, and the configured DDL as extra statements. |
| `Spanner.RequestsNameProbedResources` | emulate/spanner.go:178-183 | The create requests name exactly the instance and database that the existence checks ask for. The database request carries the configured DDL. |
| `Spanner.ListInstancesNext` | emulate/spanner.go:161-167 | A fault other than "done" is returned as is. With no fault, or a "done" fault (which is discarded), the result is an item (nil) exactly when the instance is provisioned and "done" otherwise. |
| `Spanner.GetDatabase` | emulate/spanner.go:212-216 | A fault not coded NotFound is returned as is. With no fault, or a NotFound-coded fault (which is discarded), the call succeeds exactly when the database is provisioned, and any error it gives is coded NotFound. |
| `Spanner.RunSpec` | emulate/spanner.go:75-116 | One `Run`. It only adds resources: the instances grow by at most the configured instance, the databases by at most `c.DB()`, and no existing schema changes. The emulator is started, as the first request, exactly when nothing is listening. |
| `Spanner.Provision` | emulate/spanner.go:97-116 | The checks and creates once both clients exist. It keeps the earlier requests as a prefix, leaves both client fields alone, issues no start, and only adds the configured instance and database, never changing an existing schema. |
| `Spanner.RunReachesProvision` | emulate/spanner.go:75-96 | Once the emulator is up and both clients exist, both clients point at the chosen endpoint and the run continues with the existence checks. |
| `Spanner.RunStopsBeforeChecks` | emulate/spanner.go:82-95 | If the emulator will not start or a client cannot be made, the run errors, creates nothing and leaves the provisioned instances and databases as they were. A failed start changes nothing. A failed instance client leaves `instance` unset. A failed admin client sets `instance` to the endpoint and leaves `admin` unset. |
| `Spanner.CreatesOnlyWhenAbsent` | emulate/spanner.go:97-116 | The instance is created only if `ExistsInstance` reports it absent. The database is created only if `ExistsDB` reports it absent, and only after the instance exists or was just created. |
| `Spanner.InstanceCheckErrorAborts` | emulate/spanner.go:97-100 | A listing error is returned, with nothing created and nothing changed. |
| `Spanner.InstanceCreateErrorAborts` | emulate/spanner.go:101-106 | A failed instance creation is returned before the database is looked at. |
| `Spanner.DatabaseCheckErrorAborts` | emulate/spanner.go:101-111 | Once the instance exists, already or just created, a lookup error other than NotFound is returned before any database is created. The databases are unchanged, and the only request is the instance's create, if it was absent. |
| `Spanner.ErrorProvisionsNoDatabase` | emulate/spanner.go:97-116 | A run that returns an error has provisioned no database. |
| `Spanner.SuccessProvisions` | emulate/spanner.go:97-116 | After a successful run the instance exists and both clients point at the endpoint. The database exists too, unless the run issued its create and that create's wait failed or timed out. A newly created database has the configured schema. |
| `Spanner.RerunCreatesNothing` | emulate/spanner.go:97-116 | Against a provisioned instance and database, a run creates nothing and leaves the provisioned instances and databases as they were (the schema is not re-applied). It succeeds in a healthy environment, with both clients on the chosen endpoint; the client fields are reassigned as spanner.go:88-94 does. |
| `Spanner.BootstrapIdempotent` | emulate/spanner.go:97-116 | After a successful first run that either issued no database create or whose database create completed, a second run creates nothing, leaves the provisioned instances and databases as the first run left them, and succeeds when healthy. |
| `Spanner.DroppedWaitError` | emulate/spanner.go:199-207 | A database wait that fails or times out is reported as success, the database stays absent, and the next run creates it again. |
| `Spanner.FreshBootstrap` | emulate/spanner.go:97-116 | From an empty service with operations that complete, the run creates the instance and then the database with the schema, and succeeds. |
| `Spanner.ParseDDL` | emulate/spanner.go:229-239 | The result is the trimmed, non-empty split pieces in order. Every element is non-empty, trimmed and free of `;`. |
| `Spanner.StatementsAppend` | emulate/spanner.go:232-237 | Parsing two runs of pieces one after the other gives the two results concatenated. |
| `Spanner.ParseJoined` | emulate/spanner.go:229-239 | Round trip: a list of trimmed, non-empty, `;`-free statements joined with `;` plus any `;`-free white space parses back to itself. The empty list round-trips too. |
| `Spanner.ParseDDLJoin` | emulate/spanner.go:229-239 | The same round trip for the separator `";\n"`, the one main.go:19 joins the DDL list with. |
| `Spanner.BlankSchema` | emulate/spanner.go:229-239 | Empty or blank input gives no statements. |
| `Spanner.DropBlankPiece` | emulate/spanner.go:232-236 | A blank piece anywhere in the split contributes nothing: the statements are those of the other pieces. |
| `Spanner.BlankPiecesDropped` | emulate/spanner.go:230-236 | For `a;sp;b;` with statements a and b and a blank sp, the blank middle piece and the empty last piece are dropped, giving `[a, b]`. |
| `Spanner.ParseDDLExample` | emulate/spanner.go:229-239 | `"A; ;B;"` gives `["A", "B"]`. |
| `Spanner.Spanner.New` | emulate/spanner.go:58-60 | Stores the configuration and the emulator. No clients exist yet. |
| `Spanner.Spanner.Run` | emulate/spanner.go:75-116 | The error, the requests issued and the new client fields, instances and databases are exactly those of `RunSpec` on the old state. |
| `Spanner.Spanner.Close` | emulate/spanner.go:119-121 | Forwards to the emulator's `Close`. |

## Left out

- `Running` (emulate/emulate.go:21-28) makes a TCP connection with a timeout. Its answer is the `running` field of `Environment`.
- Process spawning (`exec.Command(...).Run()` in `Docker.Run` and `Docker.Close`) is left out. Only the command lines and the order of the errors are modelled. Exit statuses come from the `exec` oracle.
- The goroutine, channel and two-second `select` in `CreateInstance` and `CreateDB` are left out. How a wait ends (completed, failed, timed out) is an input. A timed-out operation is modelled as not provisioned when `Run` returns, though the service might finish it later.
- Building the admin clients (`NewInstanceAdminClient`, `NewDatabaseAdminClient`) is an SDK call. Its error is an input. A client is only the endpoint it reaches.
- `os.Setenv` (emulate/spanner.go:80) sets a process-wide variable. It is modelled only as the endpoint that both clients carry.
- `Spanner.ListInstancesNext`: the service's `name:I` filter is a substring match. The model treats it as exact membership of `projects/P/instances/I`.
- `LoadDML` (emulate/spanner.go:242-251) is a transaction through the SDK. It is not part of this model.
- main.go is a demo transaction script made of SDK calls and printing. const.go holds literal DDL strings and a row struct. Neither is part of this model, beyond `ParseDDLJoin`, which covers how main.go:19 joins and re-splits the DDL list.
- Error texts: `fmt.Errorf` messages are modelled as structured `Error` values (`PortParse(host)`, `CreatingDatabase(cause)`), not as formatted strings. The "running extra database statements" error that `CreateDB` builds and drops is not modelled.
- Strings are sequences of characters. Go's strings are UTF-8 bytes, so decoding and invalid byte sequences are not modelled.
