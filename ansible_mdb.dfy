/** The Ansible module that declares a machine in the machine database,
    after ansible/library/mdb.py: it builds the wanted record from the
    module's parameters, refuses to change the fields fixed at creation,
    fills in defaults when it creates a machine, reports the difference
    with the current record and runs the management command only when
    there is one. The MDB query, `shlex.split` and `run_command` are
    parameters. */
module AnsibleMdb {
  import opened Common
  import opened Dicts

  /** A parameter's value: a string, an integer or a list of strings. */
  datatype Param = PText(s: string) | PNumber(n: int) | PList(items: seq<string>)

  /** A field of a machine record: a string or an integer. */
  datatype Field = Text(s: string) | Number(n: int)

  /** The fields that can be updated and those fixed at creation. */
  const UpdateFields: seq<string> := ["aliases", "rfs", "hfs", "mtype", "room"]
  const CreateFields: seq<string> := ["ip", "mac", "hostname"]

  /** The parameters that make up the record, `state` included. */
  predicate IsField(k: string)
  {
    k in UpdateFields || k in CreateFields || k == "state"
  }

  /** A list parameter is joined with commas; other values are kept. A
      non-empty list whose items hold no comma is recovered by splitting
      the text at the commas. */
  function Flatten(p: Param): (r: Field)
    ensures r.Number? <==> p.PNumber?
    ensures p.PNumber? ==> r.n == p.n
    ensures p.PText? ==> r.s == p.s
    ensures p.PList? && |p.items| >= 1 && (forall i :: 0 <= i < |p.items| ==> ',' !in p.items[i]) ==>
      Split(r.s, ',') == p.items
  {
    match p
    case PText(s) => Text(s)
    case PNumber(n) => Number(n)
    case PList(items) =>
      if |items| >= 1 && forall i :: 0 <= i < |items| ==> ',' !in items[i] then
        SplitJoin(items, ',');
        Text(Join(items, ','))
      else Text(Join(items, ','))
  }

  /** `new_machine`: the record parameters that were given, in the order of
      the parameters, lists joined. */
  function NewMachine(params: Dict<string, Option<Param>>): Dict<string, Field>
  {
    if params == [] then []
    else
      var k := params[0].0;
      (if IsField(k) && params[0].1.Some? then [(k, Flatten(params[0].1.value))] else []) + NewMachine(params[1..])
  }

  lemma TailUnique(params: Dict<string, Option<Param>>)
    requires params != [] && UniqueKeys(params)
    ensures UniqueKeys(params[1..]) && params[0].0 !in Keys(params[1..])
    ensures forall k :: k != params[0].0 ==> Lookup(params, k) == Lookup(params[1..], k)
  {
    forall i, j | 0 <= i < j < |params| - 1
      ensures params[1..][i].0 != params[1..][j].0
    {
      assert params[1..][i] == params[i + 1] && params[1..][j] == params[j + 1];
    }
    forall i | 0 <= i < |params| - 1
      ensures Keys(params[1..])[i] != params[0].0
    {
      assert params[1..][i] == params[i + 1];
    }
  }

  /** Reference definition: the value of a field in the record, from the
      parameter of that name when it is a record field and is set. */
  function Given(params: Dict<string, Option<Param>>, k: string): Option<Field>
  {
    var p := Lookup(params, k);
    if IsField(k) && p.Some? && p.value.Some? then Some(Flatten(p.value.value)) else None
  }

  /** The record holds exactly the record parameters that are set, each
      with its value, lists joined by commas. */
  lemma {:induction false} NewMachineSpec(params: Dict<string, Option<Param>>)
    requires UniqueKeys(params)
    ensures forall k :: Lookup(NewMachine(params), k) == Given(params, k)
  {
    if params != [] {
      TailUnique(params);
      NewMachineSpec(params[1..]);
      var rest := NewMachine(params[1..]);
      var k := params[0].0;
      if IsField(k) && params[0].1.Some? {
        var head := (k, Flatten(params[0].1.value));
        assert NewMachine(params) == [head] + rest;
        forall k' | true
          ensures Lookup(NewMachine(params), k') == Given(params, k')
        {
          LookupCons(head, rest, k');
          if k' != k {
            assert Given(params, k') == Given(params[1..], k');
          }
        }
      } else {
        assert NewMachine(params) == rest;
        forall k' | true
          ensures Lookup(NewMachine(params), k') == Given(params, k')
        {
          if k' != k {
            assert Given(params, k') == Given(params[1..], k');
          } else {
            assert Given(params[1..], k').None?;
          }
        }
      }
    }
  }

  lemma LookupCons<V>(head: (string, V), rest: Dict<string, V>, k: string)
    ensures Lookup([head] + rest, k) == if head.0 == k then Some(head.1) else Lookup(rest, k)
  {
    assert ([head] + rest)[1..] == rest;
  }

  /** No two fields of the record share a name. */
  lemma {:induction false} NewMachineUnique(params: Dict<string, Option<Param>>)
    requires UniqueKeys(params)
    ensures UniqueKeys(NewMachine(params))
  {
    if params != [] {
      TailUnique(params);
      NewMachineSpec(params[1..]);
      NewMachineUnique(params[1..]);
      var rest := NewMachine(params[1..]);
      var k := params[0].0;
      if IsField(k) && params[0].1.Some? {
        var all: Dict<string, Field> := [(k, Flatten(params[0].1.value))] + rest;
        assert NewMachine(params) == all;
        assert Lookup(rest, k).None?;
        forall i, j | 0 <= i < j < |all|
          ensures all[i].0 != all[j].0
        {
          assert all[j] == rest[j - 1];
          if i > 0 {
            assert all[i] == rest[i - 1];
          } else {
            assert Keys(rest)[j - 1] == rest[j - 1].0;
          }
        }
      } else {
        assert NewMachine(params) == rest;
      }
    }
  }

  /** `d.setdefault(k, v)`: a key already set keeps its value, a new one is
      appended. */
  function SetDefault(d: Dict<string, Field>, k: string, v: Field): (r: Dict<string, Field>)
    requires UniqueKeys(d)
    ensures UniqueKeys(r) && |d| <= |r| && r[..|d|] == d
    ensures Lookup(r, k) == if Lookup(d, k).Some? then Lookup(d, k) else Some(v)
    ensures forall k' :: k' != k ==> Lookup(r, k') == Lookup(d, k')
  {
    if Lookup(d, k).Some? then d else Put(d, k, v)
  }

  /** The defaults a created machine gets for the fields not given. */
  function Defaults(d: Dict<string, Field>): (r: Dict<string, Field>)
    requires UniqueKeys(d)
    ensures UniqueKeys(r)
  {
    var d1 := SetDefault(d, "rfs", Number(0));
    var d2 := SetDefault(d1, "hfs", Number(0));
    var d3 := SetDefault(d2, "aliases", Text(""));
    var d4 := SetDefault(d3, "mtype", Text("service"));
    SetDefault(d4, "room", Text("other"))
  }

  /** The default of a field on creation, if it has one. */
  function DefaultOf(k: string): Option<Field>
  {
    if k == "rfs" || k == "hfs" then Some(Number(0))
    else if k == "aliases" then Some(Text(""))
    else if k == "mtype" then Some(Text("service"))
    else if k == "room" then Some(Text("other"))
    else None
  }

  lemma SetDefaultAt(d: Dict<string, Field>, k: string, v: Field, k': string)
    requires UniqueKeys(d)
    ensures Lookup(SetDefault(d, k, v), k') ==
            if k' != k then Lookup(d, k') else if Lookup(d, k).Some? then Lookup(d, k) else Some(v)
  {
  }

  /** A created machine has every field that was given, and the default of
      every field that was not and has one; nothing else is added. */
  lemma DefaultsSpec(d: Dict<string, Field>)
    requires UniqueKeys(d)
    ensures forall k :: Lookup(Defaults(d), k) == if Lookup(d, k).Some? then Lookup(d, k) else DefaultOf(k)
  {
    var d1 := SetDefault(d, "rfs", Number(0));
    var d2 := SetDefault(d1, "hfs", Number(0));
    var d3 := SetDefault(d2, "aliases", Text(""));
    var d4 := SetDefault(d3, "mtype", Text("service"));
    var d5 := SetDefault(d4, "room", Text("other"));
    assert d5 == Defaults(d);
    forall k
      ensures Lookup(d5, k) == if Lookup(d, k).Some? then Lookup(d, k) else DefaultOf(k)
    {
      SetDefaultAt(d, "rfs", Number(0), k);
      SetDefaultAt(d1, "hfs", Number(0), k);
      SetDefaultAt(d2, "aliases", Text(""), k);
      SetDefaultAt(d3, "mtype", Text("service"), k);
      SetDefaultAt(d4, "room", Text("other"), k);
    }
  }

  /** Python's truth value of `d.get('mac')`. */
  predicate Falsy(f: Option<Field>)
  {
    f.None? || f.value == Text("") || f.value == Number(0)
  }

  /** The first of `fields` that the wanted record sets to a value other
      than the current record's. A field missing from the current record
      counts as different. */
  function Mismatch(wanted: Dict<string, Field>, current: Dict<string, Field>, fields: seq<string>): (r: Option<string>)
    ensures r.Some? ==> r.value in fields && Lookup(wanted, r.value).Some? &&
                        Lookup(current, r.value) != Lookup(wanted, r.value)
    ensures r.None? ==> forall f :: f in fields && Lookup(wanted, f).Some? ==> Lookup(current, f) == Lookup(wanted, f)
  {
    if fields == [] then None
    else if Lookup(wanted, fields[0]).Some? && Lookup(current, fields[0]) != Lookup(wanted, fields[0]) then Some(fields[0])
    else Mismatch(wanted, current, fields[1..])
  }

  /** The current record agrees with the wanted one on `f`, or `f` is
      not wanted. */
  predicate Agrees(wanted: Dict<string, Field>, current: Dict<string, Field>, f: string)
  {
    Lookup(wanted, f).Some? ==> Lookup(current, f) == Lookup(wanted, f)
  }

  /** The first mismatching field is preceded only by matching ones. */
  lemma {:induction false} MismatchFirst(wanted: Dict<string, Field>, current: Dict<string, Field>, fields: seq<string>)
    ensures var r := Mismatch(wanted, current, fields);
      r.Some? ==> exists i :: 0 <= i < |fields| && fields[i] == r.value &&
                    forall j :: 0 <= j < i ==> Agrees(wanted, current, fields[j])
  {
    if fields != [] {
      var r := Mismatch(wanted, current, fields);
      if !Agrees(wanted, current, fields[0]) {
        assert fields[0] == r.value;
      } else if r.Some? {
        var tail := fields[1..];
        MismatchFirst(wanted, current, tail);
        var i :| 0 <= i < |tail| && tail[i] == r.value &&
                 forall j :: 0 <= j < i ==> Agrees(wanted, current, tail[j]);
        assert fields[i + 1] == r.value;
        forall j | 0 <= j < i + 1
          ensures Agrees(wanted, current, fields[j])
        {
          if j > 0 {
            assert fields[j] == tail[j - 1];
          }
        }
      }
    }
  }

  /** Why the module fails. */
  datatype Failure = FieldMismatch(field: string) | MacMissing | CommandFailed(msg: string)

  /** Position `i` holds the first machine named `host`. */
  predicate FirstWithHost(machines: seq<Dict<string, Field>>, host: string, i: int)
  {
    0 <= i < |machines| && Lookup(machines[i], "hostname") == Some(Text(host))
    && forall j :: 0 <= j < i ==> Lookup(machines[j], "hostname") != Some(Text(host))
  }

  /** `mdb_get_machine`: the first machine of the database with that
      hostname, marked present, or a record that only says it is absent.
      `machines` stands for the database's answer to the query. */
  function MdbGetMachine(machines: seq<Dict<string, Field>>, host: string): (r: Dict<string, Field>)
    requires forall i :: 0 <= i < |machines| ==> UniqueKeys(machines[i])
    ensures UniqueKeys(r)
    ensures Lookup(r, "state") == Some(Text("present")) <==>
            exists i :: 0 <= i < |machines| && Lookup(machines[i], "hostname") == Some(Text(host))
    ensures Lookup(r, "state") != Some(Text("present")) ==> r == [("hostname", Text(host)), ("state", Text("absent"))]
    ensures Lookup(r, "hostname") == Some(Text(host))
    ensures Lookup(r, "state") == Some(Text("present")) ==>
      exists i :: FirstWithHost(machines, host, i) && r == Put(machines[i], "state", Text("present"))
  {
    if machines == [] then [("hostname", Text(host)), ("state", Text("absent"))]
    else if Lookup(machines[0], "hostname") == Some(Text(host)) then Put(machines[0], "state", Text("present"))
    else
      var r := MdbGetMachine(machines[1..], host);
      assert forall i :: 0 < i < |machines| ==> machines[i] == machines[1..][i - 1];
      r
  }

  /** The parameters Ansible hands the module: distinct names, a state of
      `present` or `absent`, a hostname and a management command. */
  predicate ValidParams(params: Dict<string, Option<Param>>)
  {
    UniqueKeys(params) &&
    (Lookup(params, "state") == Some(Some(PText("present"))) || Lookup(params, "state") == Some(Some(PText("absent")))) &&
    Lookup(params, "hostname").Some? && Lookup(params, "hostname").value.Some? && Lookup(params, "hostname").value.value.PText? &&
    Lookup(params, "manage_command").Some? && Lookup(params, "manage_command").value.Some? &&
    Lookup(params, "manage_command").value.value.PText?
  }

  function Hostname(params: Dict<string, Option<Param>>): string
    requires ValidParams(params)
  {
    Lookup(params, "hostname").value.value.s
  }

  /** The record to write, or why the module fails before it diffs: an
      existing machine must keep its ip, mac and hostname; a machine to
      create gets defaults and needs a mac. */
  function Prepare(params: Dict<string, Option<Param>>, current: Dict<string, Field>): (r: Result<Dict<string, Field>, Failure>)
    requires ValidParams(params)
    ensures r.Ok? ==> UniqueKeys(r.value)
  {
    NewMachineUnique(params);
    var wanted := NewMachine(params);
    if Lookup(current, "state") == Some(Text("present")) then
      match Mismatch(wanted, current, CreateFields)
      case Some(f) => Err(FieldMismatch(f))
      case None => Ok(wanted)
    else if Lookup(wanted, "state") == Some(Text("present")) then
      var d := Defaults(wanted);
      if Falsy(Lookup(d, "mac")) then Err(MacMissing) else Ok(d)
    else Ok(wanted)
  }

  /** An existing machine is left as it is, or the module fails on the
      first of ip, mac and hostname that the parameters set differently;
      the fields that can change are written as given. */
  lemma PrepareExisting(params: Dict<string, Option<Param>>, current: Dict<string, Field>)
    requires ValidParams(params) && Lookup(current, "state") == Some(Text("present"))
    ensures var wanted := NewMachine(params);
      (Prepare(params, current).Err? <==> exists f :: f in CreateFields && Lookup(wanted, f).Some? &&
                                                       Lookup(current, f) != Lookup(wanted, f)) &&
      (Prepare(params, current).Err? ==> Prepare(params, current).error == FieldMismatch(Mismatch(wanted, current, CreateFields).value)) &&
      (Prepare(params, current).Ok? ==> Prepare(params, current).value == wanted)
  {
  }

  /** A machine to create gets each record parameter that is set and the
      default of each one that is not; it fails only when no mac is
      given. */
  lemma PrepareCreate(params: Dict<string, Option<Param>>, current: Dict<string, Field>)
    requires ValidParams(params) && Lookup(current, "state") != Some(Text("present"))
    requires Lookup(params, "state") == Some(Some(PText("present")))
    ensures Prepare(params, current) == Err(MacMissing) <==> Falsy(Given(params, "mac"))
    ensures Prepare(params, current).Ok? ==>
      forall k :: Lookup(Prepare(params, current).value, k) ==
        if Given(params, k).Some? then Given(params, k) else DefaultOf(k)
  {
    PrepareDefaults(params, current);
    var wanted := NewMachine(params);
    var d := Defaults(wanted);
    DefaultedGiven(params, "mac");
    if Prepare(params, current).Ok? {
      forall k
        ensures Lookup(d, k) == if Given(params, k).Some? then Given(params, k) else DefaultOf(k)
      {
        DefaultedGiven(params, k);
      }
    }
  }

  /** Each field of the defaulted record is the parameter given for it or
      else its default. */
  lemma DefaultedGiven(params: Dict<string, Option<Param>>, k: string)
    requires UniqueKeys(params)
    ensures UniqueKeys(NewMachine(params))
    ensures Lookup(Defaults(NewMachine(params)), k) == if Given(params, k).Some? then Given(params, k) else DefaultOf(k)
  {
    NewMachineSpec(params);
    NewMachineUnique(params);
    DefaultsSpec(NewMachine(params));
  }

  /** The creation branch of `Prepare`. */
  lemma PrepareDefaults(params: Dict<string, Option<Param>>, current: Dict<string, Field>)
    requires ValidParams(params) && Lookup(current, "state") != Some(Text("present"))
    requires Lookup(params, "state") == Some(Some(PText("present")))
    ensures UniqueKeys(NewMachine(params))
    ensures var d := Defaults(NewMachine(params));
      Prepare(params, current) == if Falsy(Lookup(d, "mac")) then Err(MacMissing) else Ok(d)
  {
    NewMachineSpec(params);
    NewMachineUnique(params);
    assert Lookup(NewMachine(params), "state") == Some(Text("present"));
  }

  /** `{k: v for k, v in old.items() if k in new}`. */
  function Before(current: Dict<string, Field>, wanted: Dict<string, Field>): (r: map<string, Field>)
  {
    map k | k in Keys(current) && k in Keys(wanted) :: Lookup(current, k).value
  }

  function After(wanted: Dict<string, Field>): map<string, Field>
  {
    map k | k in Keys(wanted) :: Lookup(wanted, k).value
  }

  /** The diff shows a change exactly when some field of the record to
      write is missing from the current record or has another value
      there. */
  lemma ChangedSpec(current: Dict<string, Field>, wanted: Dict<string, Field>)
    ensures Before(current, wanted) != After(wanted) <==>
            exists k :: k in Keys(wanted) && Lookup(current, k) != Lookup(wanted, k)
  {
    var b := Before(current, wanted);
    var a := After(wanted);
    if b != a {
      if b.Keys != a.Keys {
        var k :| k in a.Keys && k !in b.Keys;
        assert Lookup(current, k).None?;
      } else {
        var k :| k in a.Keys && b[k] != a[k];
        assert Lookup(current, k) != Lookup(wanted, k);
      }
    } else {
      forall k | k in Keys(wanted)
        ensures Lookup(current, k) == Lookup(wanted, k)
      {
        assert k in a.Keys;
      }
    }
  }

  /** `str(v)`. */
  function Render(f: Field): string
  {
    match f
    case Text(s) => s
    case Number(n) => IntToString(n)
  }

  /** The options `--k v` for every field but `state`, in record order. */
  function Options(d: Dict<string, Field>): seq<string>
  {
    if d == [] then []
    else
      var last := d[|d| - 1];
      Options(d[..|d| - 1]) + if last.0 != "state" then ["--" + last.0, Render(last.1)] else []
  }

  /** The fields of a record other than `state`, in record order. */
  function NonState(d: Dict<string, Field>): (r: Dict<string, Field>)
    ensures |r| <= |d|
    ensures forall p :: p in r <==> p in d && p.0 != "state"
  {
    if d == [] then []
    else
      var last := d[|d| - 1];
      assert d == d[..|d| - 1] + [last];
      NonState(d[..|d| - 1]) + if last.0 != "state" then [last] else []
  }

  /** The options are exactly the fields but `state`, in record order,
      each as `--k` followed by its value, and nothing else. */
  lemma {:induction false} OptionsSpec(d: Dict<string, Field>)
    ensures |Options(d)| == 2 * |NonState(d)|
    ensures forall i :: 0 <= i < |NonState(d)| ==>
      Options(d)[2 * i] == "--" + NonState(d)[i].0 && Options(d)[2 * i + 1] == Render(NonState(d)[i].1)
  {
    if d != [] {
      var init, last := d[..|d| - 1], d[|d| - 1];
      OptionsSpec(init);
      var n := |NonState(init)|;
      forall i | 0 <= i < |NonState(d)|
        ensures Options(d)[2 * i] == "--" + NonState(d)[i].0 && Options(d)[2 * i + 1] == Render(NonState(d)[i].1)
      {
        if i < n {
          assert NonState(d)[i] == NonState(init)[i];
          assert Options(d)[2 * i] == Options(init)[2 * i] && Options(d)[2 * i + 1] == Options(init)[2 * i + 1];
        } else {
          assert NonState(d)[i] == last;
        }
      }
    }
  }

  /** The management command: add or update the machine with its fields,
      or delete it. */
  function Command(base: seq<string>, wanted: Dict<string, Field>, host: string): seq<string>
  {
    if Lookup(wanted, "state") == Some(Text("present")) then base + ["addmachine", "--update"] + Options(wanted)
    else if Lookup(wanted, "state") == Some(Text("absent")) then base + ["delmachine", host]
    else base
  }

  /** The failure message of a command: its output and its errors, each
      when there is any. */
  function CommandMessage(out: string, err: string): (r: string)
    ensures out == "" && err == "" ==> r == ""
    ensures out != "" ==> IsPrefix("stdout: " + out, r)
    ensures err != "" ==> IsSuffix("\n:stderr: " + err, r)
  {
    (if out != "" then "stdout: " + out else "") + (if err != "" then "\n:stderr: " + err else "")
  }

  /** What the module reports: the diff (none when it fails before
      computing it), the command it ran, if any, and why it failed, if it
      did. */
  datatype Diff = Diff(changed: bool, before: map<string, Field>, after: map<string, Field>)
  datatype Outcome = Outcome(diff: Option<Diff>, ran: Option<seq<string>>, failure: Option<Failure>)

  /** The check of an existing machine: the first of ip, mac and hostname
      set to another value. */
  method CheckFixedFields(wanted: Dict<string, Field>, current: Dict<string, Field>) returns (bad: Option<string>)
    ensures bad == Mismatch(wanted, current, CreateFields)
  {
    var i := 0;
    while i < |CreateFields|
      invariant i <= |CreateFields|
      invariant Mismatch(wanted, current, CreateFields) == Mismatch(wanted, current, CreateFields[i..])
    {
      var f := CreateFields[i];
      if Lookup(wanted, f).Some? && Lookup(current, f) != Lookup(wanted, f) {
        return Some(f);
      }
      assert CreateFields[i..][1..] == CreateFields[i + 1..];
      i := i + 1;
    }
    return None;
  }

  /** The `setdefault` calls of a machine to create. */
  method FillDefaults(wanted: Dict<string, Field>) returns (d: Dict<string, Field>)
    requires UniqueKeys(wanted)
    ensures d == Defaults(wanted)
  {
    d := SetDefault(wanted, "rfs", Number(0));
    d := SetDefault(d, "hfs", Number(0));
    d := SetDefault(d, "aliases", Text(""));
    d := SetDefault(d, "mtype", Text("service"));
    d := SetDefault(d, "room", Text("other"));
  }

  /** The loop that appends `--k v` for every field but `state`. */
  method AppendOptions(start: seq<string>, wanted: Dict<string, Field>) returns (command: seq<string>)
    ensures command == start + Options(wanted)
  {
    command := start;
    var j := 0;
    while j < |wanted|
      invariant j <= |wanted|
      invariant command == start + Options(wanted[..j])
    {
      assert wanted[..j + 1][..j] == wanted[..j];
      if wanted[j].0 != "state" {
        command := command + ["--" + wanted[j].0, Render(wanted[j].1)];
      }
      j := j + 1;
    }
    assert wanted[..|wanted|] == wanted;
  }

  /** The command is built up from the split management command. */
  method BuildCommand(base: seq<string>, wanted: Dict<string, Field>, host: string) returns (command: seq<string>)
    ensures command == Command(base, wanted, host)
  {
    command := base;
    if Lookup(wanted, "state") == Some(Text("present")) {
      command := AppendOptions(command + ["addmachine", "--update"], wanted);
    } else if Lookup(wanted, "state") == Some(Text("absent")) {
      command := command + ["delmachine", host];
    }
  }

  /** `run_module`. `machines` is the database's answer to the query,
      `split` is `shlex.split` and `run` is `module.run_command`. */
  method RunModule(params: Dict<string, Option<Param>>, machines: seq<Dict<string, Field>>, checkMode: bool,
                   split: string -> seq<string>, run: seq<string> -> (int, string, string))
    returns (out: Outcome)
    requires ValidParams(params)
    requires forall i :: 0 <= i < |machines| ==> UniqueKeys(machines[i])
    ensures var current := MdbGetMachine(machines, Hostname(params));
      Prepare(params, current).Err? ==> out == Outcome(None, None, Some(Prepare(params, current).error))
    ensures var current := MdbGetMachine(machines, Hostname(params));
      Prepare(params, current).Ok? ==>
        var wanted := Prepare(params, current).value;
        var changed := Before(current, wanted) != After(wanted);
        var command := Command(split(Lookup(params, "manage_command").value.value.s), wanted, Hostname(params));
        out.diff == Some(Diff(changed, Before(current, wanted), After(wanted))) &&
        (checkMode || !changed ==> out.ran == None && out.failure == None) &&
        (!checkMode && changed ==>
           out.ran == Some(command) &&
           out.failure == if run(command).0 != 0 then Some(CommandFailed(CommandMessage(run(command).1, run(command).2))) else None)
  {
    var host := Lookup(params, "hostname").value.value.s;
    var current := MdbGetMachine(machines, host);
    NewMachineUnique(params);
    var wanted := NewMachine(params);
    if Lookup(current, "state") == Some(Text("present")) {
      var bad := CheckFixedFields(wanted, current);
      if bad.Some? {
        return Outcome(None, None, Some(FieldMismatch(bad.value)));
      }
    } else if Lookup(wanted, "state") == Some(Text("present")) {
      wanted := FillDefaults(wanted);
      if Falsy(Lookup(wanted, "mac")) {
        return Outcome(None, None, Some(MacMissing));
      }
    }
    assert Prepare(params, current) == Ok(wanted);
    var before := Before(current, wanted);
    var after := After(wanted);
    var changed := before != after;
    var diff := Diff(changed, before, after);
    if checkMode {
      return Outcome(Some(diff), None, None);
    }
    var command := BuildCommand(split(Lookup(params, "manage_command").value.value.s), wanted, host);
    if changed {
      var result := run(command);
      if result.0 != 0 {
        return Outcome(Some(diff), Some(command), Some(CommandFailed(CommandMessage(result.1, result.2))));
      }
      return Outcome(Some(diff), Some(command), None);
    }
    return Outcome(Some(diff), None, None);
  }
}
