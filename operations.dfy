/** The command lines the worker node runs, after
    python-lib/prologin/workernode/operations.py: the `name=value` options
    of a match, and their expansion into `--name value` arguments of the
    match server and of the player clients. Running a command is the `run`
    parameter. */
module WorkerOperations {
  import opened Common
  import opened Dicts

  /** The options, in the order their names first appear. */
  type Opts = Dict<string, string>

  /** One line of the options: a name and a value around its first `=`,
      both stripped; a line without `=` is none. */
  function OptionLine(line: string): (r: Option<(string, string)>)
    ensures r.None? <==> '=' !in line
  {
    if '=' !in line then None
    else
      var k := Find(line, '=');
      Some((Strip(line[..k]), Strip(line[k + 1..])))
  }

  /** The dictionary the option lines build, each one assigned in turn. */
  function OptsOf(lines: seq<string>): (r: Opts)
    ensures UniqueKeys(r)
  {
    if lines == [] then []
    else
      AddOption(OptsOf(lines[..|lines| - 1]), lines[|lines| - 1])
  }

  /** The value the options give `name`: that of the last line naming it. */
  function LastValue(lines: seq<string>, name: string): Option<string>
  {
    if lines == [] then None
    else
      var line := OptionLine(lines[|lines| - 1]);
      if line.Some? && line.value.0 == name then Some(line.value.1)
      else LastValue(lines[..|lines| - 1], name)
  }

  /** A later line naming an option overrides the earlier ones, and lines
      without `=` change nothing. */
  lemma {:induction false} OptsOfLastValue(lines: seq<string>, name: string)
    ensures Lookup(OptsOf(lines), name) == LastValue(lines, name)
  {
    if lines != [] {
      OptsOfLastValue(lines[..|lines| - 1], name);
    }
  }

  /** One more line of options. */
  lemma OptsOfNext(lines: seq<string>, i: nat)
    requires i < |lines|
    ensures OptsOf(lines[..i + 1]) == AddOption(OptsOf(lines[..i]), lines[i])
  {
    assert lines[..i + 1][..i] == lines[..i];
  }

  /** One line assigned: its option set when it has an `=`. */
  function AddOption(d: Opts, line: string): Opts
  {
    match OptionLine(line)
    case Some(nv) => Put(d, nv.0, nv.1)
    case None => d
  }

  /** `parse_opts`. */
  method ParseOpts(opts: string) returns (d: Opts)
    ensures d == OptsOf(Split(opts, '\n'))
  {
    var lines := Split(opts, '\n');
    d := [];
    var i := 0;
    while i < |lines|
      invariant 0 <= i <= |lines|
      invariant d == OptsOf(lines[..i])
    {
      OptsOfNext(lines, i);
      match OptionLine(lines[i]) {
        case Some(nv) => d := Put(d, nv.0, nv.1);
        case None =>
      }
      i := i + 1;
    }
    assert lines[..i] == lines;
  }

  /** The text `name=value`, one per line. */
  function OptsText(d: Opts): seq<string>
  {
    seq(|d|, i requires 0 <= i < |d| => d[i].0 + "=" + d[i].1)
  }

  /** Names and values that survive the parse unchanged. */
  predicate Plain(d: Opts)
  {
    UniqueKeys(d) &&
    forall i :: 0 <= i < |d| ==>
      Stripped(d[i].0) && Stripped(d[i].1) && '=' !in d[i].0
  }

  /** The two sides of `name=value`. */
  lemma Sides(name: string, value: string)
    ensures (name + "=" + value)[..|name|] == name
    ensures (name + "=" + value)[|name| + 1..] == value
  {
    var line := name + "=" + value;
    assert line == name + ['='] + value;
  }

  /** A line `name=value` whose name has no `=` is read as the two sides,
      stripped. */
  lemma OptionLineSides(name: string, value: string)
    requires '=' !in name
    ensures OptionLine(name + "=" + value) == Some((Strip(name), Strip(value)))
  {
    FindAfter(name, value, '=');
    Sides(name, value);
  }

  /** Text that neither starts nor ends with whitespace, which stripping
      leaves unchanged. */
  predicate Stripped(s: string)
  {
    s != [] ==> !IsSpace(s[0]) && !IsSpace(s[|s| - 1])
  }

  /** A name without `=` and a value, neither with whitespace at its ends,
      joined by `=`, are read back as themselves. */
  lemma OptionLineOf(name: string, value: string)
    requires '=' !in name && Stripped(name) && Stripped(value)
    ensures OptionLine(name + "=" + value) == Some((name, value))
  {
    OptionLineSides(name, value);
    StripNoSpaceEnds(name);
    StripNoSpaceEnds(value);
  }

  lemma OptsTextLast(d: Opts)
    requires d != []
    ensures OptsText(d)[..|d| - 1] == OptsText(d[..|d| - 1])
    ensures OptsText(d)[|d| - 1] == d[|d| - 1].0 + "=" + d[|d| - 1].1
  {
  }

  lemma PlainInit(d: Opts)
    requires d != [] && Plain(d)
    ensures Plain(d[..|d| - 1]) && d[|d| - 1].0 !in Keys(d[..|d| - 1])
  {
    var init := d[..|d| - 1];
    assert forall i :: 0 <= i < |init| ==> Keys(init)[i] == d[i].0;
  }

  /** Writing the options one per line and reading them back gives them
      back, in order. */
  lemma {:induction false} OptsOfText(d: Opts)
    requires Plain(d)
    ensures OptsOf(OptsText(d)) == d
  {
    if d != [] {
      OptsTextLast(d);
      PlainInit(d);
      OptsOfText(d[..|d| - 1]);
      OptionLineOf(d[|d| - 1].0, d[|d| - 1].1);
      SeqSnoc(d);
    }
  }

  /** The arguments the options add to a command: `--name`, then the value,
      in the order of the dictionary. */
  function OptionArgs(d: Opts): (r: seq<string>)
    ensures |r| == 2 * |d|
    ensures forall i :: 0 <= i < |d| ==> r[2 * i] == "--" + d[i].0 && r[2 * i + 1] == d[i].1
  {
    if d == [] then []
    else
      var r := OptionArgs(d[..|d| - 1]) + ["--" + d[|d| - 1].0, d[|d| - 1].1];
      assert forall i :: 0 <= i < |d| - 1 ==> d[..|d| - 1][i] == d[i];
      r
  }

  /** The loop that appends the options to a command. */
  method AppendOptions(cmd: seq<string>, d: Opts) returns (r: seq<string>)
    ensures r == cmd + OptionArgs(d)
  {
    r := cmd;
    var i := 0;
    while i < |d|
      invariant 0 <= i <= |d|
      invariant r == cmd + OptionArgs(d[..i])
    {
      assert d[..i + 1][..i] == d[..i];
      r := r + ["--" + d[i].0, d[i].1];
      i := i + 1;
    }
    assert d[..i] == d;
  }

  datatype Paths = Paths(stechecServer: string, stechecClient: string, rules: string)

  /** The ZeroMQ address of a TCP port. */
  function Address(host: string, port: int): string
  {
    "tcp://" + host + ":" + IntToString(port)
  }

  /** The fixed part of the match server's command line. */
  function ServerBase(paths: Paths, repPort: int, pubPort: int, nbPlayers: int): (r: seq<string>)
    ensures |r| == 15 && r[7] == "--nb_clients" && r[8] == IntToString(nbPlayers + 1)
  {
    var clients := IntToString(nbPlayers + 1);
    var head := [paths.stechecServer, "--rules", paths.rules,
                 "--rep_addr", Address("0.0.0.0", repPort),
                 "--pub_addr", Address("0.0.0.0", pubPort)];
    var tail := ["--time", "3000", "--socket_timeout", "45000", "--verbose", "1"];
    head + ["--nb_clients", clients] + tail
  }

  /** The fixed part of a player client's command line. */
  function ClientBase(paths: Paths, ip: string, reqPort: int, subPort: int, plId: int, championPath: string): (r: seq<string>)
    ensures |r| == 19 && r[2] == IntToString(plId)
    ensures r[..7] == [paths.stechecClient, "--name", IntToString(plId), "--rules", paths.rules,
                       "--champion", championPath + "/champion.so"]
  {
    var head := [paths.stechecClient, "--name", IntToString(plId), "--rules", paths.rules,
                 "--champion", championPath + "/champion.so"];
    var tail := ["--req_addr", Address(ip, reqPort), "--sub_addr", Address(ip, subPort),
                 "--memory", "250000", "--socket_timeout", "45000",
                 "--time", "1500", "--verbose", "1"];
    assert (head + tail)[..7] == head;
    head + tail
  }

  /** The server is told to wait for one client more than there are
      players: the extra one is the dumper. */
  lemma ServerClientCount(paths: Paths, repPort: int, pubPort: int, nbPlayers: int)
    ensures ParseInt(ServerBase(paths, repPort, pubPort, nbPlayers)[8]) == Some(nbPlayers + 1)
  {
    ParseIntToString(nbPlayers + 1);
  }

  /** A client is named by its player id. */
  lemma ClientNamedByPlayer(paths: Paths, ip: string, reqPort: int, subPort: int, plId: int, championPath: string)
    ensures ParseInt(ClientBase(paths, ip, reqPort, subPort, plId, championPath)[2]) == Some(plId)
  {
    ParseIntToString(plId);
  }

  /** `spawn_server`: the server is started for one more client than there
      are players (the dumper), with the match options after the fixed
      arguments; a failing server yields an empty output. */
  method SpawnServer(paths: Paths, repPort: int, pubPort: int, nbPlayers: int, opts: string,
                     run: seq<string> -> (int, string))
    returns (cmd: seq<string>, output: string)
    ensures cmd == ServerBase(paths, repPort, pubPort, nbPlayers) + OptionArgs(OptsOf(Split(opts, '\n')))
    ensures output == (if run(cmd).0 == 0 then run(cmd).1 else "")
  {
    var d := ParseOpts(opts);
    cmd := AppendOptions(ServerBase(paths, repPort, pubPort, nbPlayers), d);
    var (retcode, stdout) := run(cmd);
    if retcode != 0 {
      return cmd, "";
    }
    output := stdout;
  }

  /** `spawn_client`: the champion directory is passed in the environment
      with a trailing slash, the match options after the fixed arguments;
      the return code and output are those of the run. */
  method SpawnClient(paths: Paths, ip: string, reqPort: int, subPort: int, plId: int,
                     championPath: string, opts: string, run: seq<string> -> (int, string))
    returns (championEnv: string, cmd: seq<string>, retcode: int, output: string)
    ensures championEnv == championPath + "/"
    ensures cmd == ClientBase(paths, ip, reqPort, subPort, plId, championPath) + OptionArgs(OptsOf(Split(opts, '\n')))
    ensures (retcode, output) == run(cmd)
  {
    championEnv := championPath + "/";
    var d := ParseOpts(opts);
    cmd := AppendOptions(ClientBase(paths, ip, reqPort, subPort, plId, championPath), d);
    retcode, output := run(cmd).0, run(cmd).1;
  }
}
