/** The emulator facade and the Docker runner behind it (emulate/emulate.go).
    Starting a process is not modelled: a command is recorded in an `Effect`
    and its exit status comes from an `exec` oracle. */
module Emulate {
  import opened Failures
  import opened GoStrings

  const DefaultGRPCHost := "localhost:9010"
  const DefaultRestHost := "localhost:9020"
  const DefaultContainerName := "spanner-emulator"
  const DefaultImage := "gcr.io/cloud-spanner-emulator/emulator"

  /** The port of a `host:port` string: the text between the first `:` and
      the next `:` or the end. No check is made that it is numeric. */
  function Port(host: string): (r: Result<string>)
    ensures r.Err? <==> ':' !in host
    ensures r.Err? ==> r.error == PortParse(host)
    ensures r.Ok? ==> ':' !in r.value
  {
    var sp := Split(host, ':');
    if |sp| < 2 then Err(PortParse(host)) else Ok(sp[1])
  }

  /** The port is whatever stands after the first colon, up to the next one. */
  lemma PortAfterFirstColon(a: string, p: string, tail: string)
    requires ':' !in a && ':' !in p
    requires tail == [] || tail[0] == ':'
    ensures Port(a + [':'] + p + tail) == Ok(p)
  {
    assert a + [':'] + p + tail == a + [':'] + (p + tail);
    SplitAtSep(a, ':', p + tail);
    if tail == [] {
      assert p + tail == p;
      SplitWithoutSep(p, ':');
    } else {
      assert p + tail == p + [':'] + tail[1..];
      SplitAtSep(p, ':', tail[1..]);
    }
  }

  /** Every host string that has a colon is of the shape
      `PortAfterFirstColon` describes, so that lemma covers all of them. */
  lemma PortShape(host: string) returns (a: string, tail: string)
    requires ':' in host
    ensures ':' !in a && (tail == [] || tail[0] == ':')
    ensures Port(host).Ok? && host == a + [':'] + Port(host).value + tail
  {
    var sp := Split(host, ':');
    JoinSplit(host, ':');
    a := sp[0];
    var rest := sp[1..];
    assert sp == [a] + rest;
    assert rest[1..] == sp[2..];
    tail := if |sp| == 2 then [] else [':'] + Join(sp[2..], [':']);
    assert Join(rest, [':']) == sp[1] + tail;
  }

  /** Round trip: a port joined to a colon-free host name is read back. */
  lemma PortRoundTrip(name: string, port: string)
    requires ':' !in name && ':' !in port
    ensures Port(name + ":" + port) == Ok(port)
  {
    PortAfterFirstColon(name, port, []);
    assert name + ":" + port == name + [':'] + port + [];
  }

  /** A command line handed to the operating system. */
  datatype Command = Command(program: string, args: seq<string>)

  /** What a runner or closer did: the commands it started, in order, and
      the error it returned. */
  datatype Effect = Effect(commands: seq<Command>, err: Option<Error>)

  /** The `docker run` arguments that publish both ports. */
  function RunArgs(name: string, image: string, grpcPort: string, restPort: string): (r: seq<string>)
  {
    ["run", "-d", "--name", name,
     "-p", grpcPort + ":" + grpcPort,
     "-p", restPort + ":" + restPort, image]
  }

  datatype Docker = Docker(name: string, image: string)
  {
    /** Starts the container, publishing each port on the same host port.
        A malformed host fails before any command is started, the gRPC
        host being checked first. */
    function Run(grpcHost: string, restHost: string, exec: Command -> Option<Error>): (e: Effect)
      ensures Port(grpcHost).Err? ==> e == Effect([], Some(PortParse(grpcHost)))
      ensures Port(grpcHost).Ok? && Port(restHost).Err? ==> e == Effect([], Some(PortParse(restHost)))
      ensures Port(grpcHost).Ok? && Port(restHost).Ok? ==>
        var g, r := Port(grpcHost).value, Port(restHost).value;
        |e.commands| == 1 && e.commands[0].program == "docker" &&
        e.commands[0].args == ["run", "-d", "--name", name, "-p", g + ":" + g, "-p", r + ":" + r, image] &&
        e.err == exec(e.commands[0])
    {
      match Port(grpcHost)
      case Err(err) => Effect([], Some(err))
      case Ok(grpcPort) =>
        match Port(restHost)
        case Err(err) => Effect([], Some(err))
        case Ok(restPort) =>
          var start := Command("docker", RunArgs(name, image, grpcPort, restPort));
          Effect([start], exec(start))
    }

    /** Kills and removes the container. `exec` gives each command's
        status, which `Close` ignores: it succeeds even when the container
        is already gone. */
    function Close(exec: Command -> Option<Error>): (e: Effect)
      ensures e.err == None
      ensures e.commands == [Command("docker", ["kill", name]), Command("docker", ["rm", name])]
    {
      var kill := Command("docker", ["kill", name]);
      var rm := Command("docker", ["rm", name]);
      Effect([kill, rm], None)
    }
  }

  /** The port published by each `-p` argument of a started container is
      the port of the corresponding host string, on both sides of the colon. */
  lemma DockerRunPublishesPorts(d: Docker, grpcHost: string, restHost: string, exec: Command -> Option<Error>)
    requires ':' in grpcHost && ':' in restHost
    ensures var e := d.Run(grpcHost, restHost, exec);
      |e.commands| == 1 && |e.commands[0].args| == 9 &&
      Port(e.commands[0].args[5]) == Port(grpcHost) &&
      Port(e.commands[0].args[7]) == Port(restHost)
  {
    var g, r := Port(grpcHost).value, Port(restHost).value;
    PortRoundTrip(g, g);
    PortRoundTrip(r, r);
  }

  const DefaultDocker := Docker(DefaultContainerName, DefaultImage)

  /** The emulator facade: how to start and stop it, and its two endpoints. */
  datatype Emulator = Emulator(runner: (string, string) -> Effect, closer: () -> Effect,
                               grpcHost: string, restHost: string)
  {
    /** The stored endpoints, gRPC first. */
    function Hosts(): (h: (string, string))
      ensures h.0 == grpcHost && h.1 == restHost
    {
      (grpcHost, restHost)
    }

    /** Starts the emulator by handing the runner the gRPC and then the REST endpoint. */
    function Run(): (e: Effect)
      ensures e == runner(grpcHost, restHost)
    {
      var (grpc, rest) := Hosts();
      runner(grpc, rest)
    }

    /** Stops the emulator through the closer. */
    function Close(): (e: Effect)
      ensures e == closer()
    {
      closer()
    }
  }

  /** The default emulator: the Docker image on localhost ports 9010 and 9020. */
  function DefaultEmulator(exec: Command -> Option<Error>): (em: Emulator)
  {
    Emulator((grpc, rest) => DefaultDocker.Run(grpc, rest, exec), () => DefaultDocker.Close(exec),
             DefaultGRPCHost, DefaultRestHost)
  }

  /** Starting the default emulator runs exactly one `docker run`, which
      publishes ports 9010 and 9020 of the default container, and returns
      that command's status. */
  lemma DefaultEmulatorRun(e: Emulator, exec: Command -> Option<Error>)
    requires e == DefaultEmulator(exec)
    ensures var start := Command("docker", RunArgs(DefaultContainerName, DefaultImage, "9010", "9020"));
      e.Run() == Effect([start], exec(start))
  {
    DefaultGRPCPort(e, exec);
    DefaultRestPort(e, exec);
    DockerRunStarts(DefaultDocker, e.grpcHost, e.restHost, "9010", "9020", exec);
  }

  lemma DefaultGRPCPort(e: Emulator, exec: Command -> Option<Error>)
    requires e == DefaultEmulator(exec)
    ensures e.Run() == DefaultDocker.Run(e.grpcHost, e.restHost, exec)
    ensures Port(e.grpcHost) == Ok("9010")
  {
    LocalhostPort(e.grpcHost, "9010");
  }

  lemma DefaultRestPort(e: Emulator, exec: Command -> Option<Error>)
    requires e == DefaultEmulator(exec)
    ensures Port(e.restHost) == Ok("9020")
  {
    LocalhostPort(e.restHost, "9020");
  }

  /** With both ports readable, `Run` starts the one `docker run` command. */
  lemma DockerRunStarts(d: Docker, grpcHost: string, restHost: string, g: string, r: string,
                        exec: Command -> Option<Error>)
    requires Port(grpcHost) == Ok(g) && Port(restHost) == Ok(r)
    ensures d.Run(grpcHost, restHost, exec) ==
      var start := Command("docker", RunArgs(d.name, d.image, g, r));
      Effect([start], exec(start))
  {
  }

  lemma LocalhostPort(host: string, port: string)
    requires ':' !in port && host == "localhost:" + port
    ensures Port(host) == Ok(port)
  {
    PortRoundTrip("localhost", port);
    assert "localhost" + ":" == "localhost:";
  }

  /** Stopping the default emulator kills and removes its container and never fails. */
  lemma DefaultEmulatorClose(e: Emulator, exec: Command -> Option<Error>)
    requires e == DefaultEmulator(exec)
    ensures e.Close() ==
      Effect([Command("docker", ["kill", "spanner-emulator"]), Command("docker", ["rm", "spanner-emulator"])], None)
  {
  }
}
