/** The rebuild of the system account files from the user database, after
    python-lib/prologin/udbsync_clients/passwd.py. The accounts the system
    already has are read from /etc/passwd, /etc/shadow and /etc/group, the
    ones Prologin handles are dropped and re-created from the database, and
    the three files are written back sorted. A file is the sequence of its
    lines, without their line feeds. */
module Passwd {
  import opened Common
  import opened Dicts
  import opened Sorting

  /** A line of /etc/passwd. */
  datatype User = User(login: string, password: string, uid: nat, gid: nat,
                       name: string, home: string, shell: string)

  /** A line of /etc/group; the members are a set, kept here in the order
      they joined. */
  datatype Group = Group(name: string, password: string, gid: nat, members: seq<string>)

  /** A user of the database, as the synchronisation delivers it. */
  datatype UdbUser = UdbUser(login: string, group: string, uid: nat, firstname: string,
                             lastname: string, shell: string, password: string)

  const UserGid: nat := 10000
  const OrgaGid: nat := 10001

  /** The groups Prologin manages, with the gid each gets when it has to be
      created, in the order they are reset. */
  const ProloginGroups: seq<(string, nat)> := [("user", UserGid), ("orga", OrgaGid)]

  /** The gid of a group Prologin manages. */
  function ProloginGid(name: string): nat
  {
    if name == "orga" then OrgaGid else UserGid
  }

  /** The uids of the users Prologin handles. */
  predicate IsProloginUid(uid: int)
  {
    10000 <= uid < 20000
  }

  // ---------------------------------------------------------------------
  // Reading the files

  predicate IsNameChar(c: char)
  {
    'a' <= c <= 'z' || '0' <= c <= '9' || c == '-' || c == '_'
  }

  /** One or more of `-`, `_`, lower-case ASCII letters and digits. */
  predicate IsName(s: string)
  {
    |s| > 0 && forall i :: 0 <= i < |s| ==> IsNameChar(s[i])
  }

  predicate IsNumber(s: string)
  {
    |s| > 0 && AllDigits(s)
  }

  /** A passwd line: login, password, uid, gid, then a name that may hold
      colons, then home and shell, neither empty. */
  function ParseUser(line: string): (r: Option<User>)
    ensures r.Some? ==> IsName(r.value.login)
  {
    var f := Split(line, ':');
    var n := |f|;
    if n >= 7 && IsName(f[0]) && IsNumber(f[2]) && IsNumber(f[3]) && f[n - 2] != [] && f[n - 1] != [] then
      Some(User(f[0], f[1], DigitsValue(f[2]), DigitsValue(f[3]), Join(f[4..n - 2], ':'), f[n - 2], f[n - 1]))
    else
      None
  }

  /** A shadow line: a login, a colon, and the rest of the line. */
  function ParseShadow(line: string): (r: Option<(string, string)>)
    ensures r.Some? ==> IsName(r.value.0)
  {
    if ':' in line then
      var k := Find(line, ':');
      if IsName(line[..k]) then Some((line[..k], line[k + 1..])) else None
    else
      None
  }

  /** `set.add`. */
  function AddMember(ms: seq<string>, m: string): (r: seq<string>)
    ensures forall x :: x in r <==> x in ms || x == m
    ensures Distinct(ms) ==> Distinct(r)
  {
    if m in ms then ms else ms + [m]
  }

  /** The members named by the comma-separated parts of a group line: the
      non-empty parts, each once. */
  function Members(parts: seq<string>): (r: seq<string>)
    ensures Distinct(r)
  {
    if parts == [] then []
    else
      var ms := Members(parts[..|parts| - 1]);
      var p := parts[|parts| - 1];
      if p == [] then ms else AddMember(ms, p)
  }

  /** The members are exactly the non-empty parts. */
  lemma {:induction false} MembersElements(parts: seq<string>)
    ensures forall m :: m in Members(parts) <==> m in parts && m != []
  {
    if parts != [] {
      var init := parts[..|parts| - 1];
      MembersElements(init);
      assert parts == init + [parts[|parts| - 1]];
    }
  }

  predicate IsMembersField(s: string)
  {
    forall i :: 0 <= i < |s| ==> IsNameChar(s[i]) || s[i] == ','
  }

  /** A group line: name, password, gid and a comma-separated member list. */
  function ParseGroup(line: string): (r: Option<Group>)
    ensures r.Some? ==> IsName(r.value.name) && Distinct(r.value.members)
  {
    var f := Split(line, ':');
    if |f| == 4 && IsName(f[0]) && IsNumber(f[2]) && IsMembersField(f[3]) then
      Some(Group(f[0], f[1], DigitsValue(f[2]), Members(Split(f[3], ','))))
    else
      None
  }

  // ---------------------------------------------------------------------
  // Writing the files

  function UserLine(u: User): string
  {
    Join([u.login, u.password, NatToString(u.uid), NatToString(u.gid), u.name, u.home, u.shell], ':')
  }

  function ShadowLine(login: string, rest: string): string
  {
    login + ":" + rest
  }

  function GroupLine(g: Group, members: seq<string>): string
  {
    Join([g.name, g.password, NatToString(g.gid), Join(members, ',')], ':')
  }

  /** The users whose line reads back as themselves: a login, and a
      password, home and shell without colons, home and shell not empty;
      the name may hold anything. */
  predicate WellFormedUser(u: User)
  {
    IsName(u.login) && ':' !in u.password && ':' !in u.home && ':' !in u.shell &&
    u.home != [] && u.shell != []
  }

  /** The fields of a passwd line once the name is split at its colons. */
  lemma UserLineFields(u: User)
    ensures UserLine(u) == Join([u.login, u.password, NatToString(u.uid), NatToString(u.gid)]
                                + Split(u.name, ':') + [u.home, u.shell], ':')
  {
    var a := [u.login, u.password, NatToString(u.uid), NatToString(u.gid)];
    var m := Split(u.name, ':');
    var b := [u.home, u.shell];
    JoinSplit(u.name, ':');
    assert [u.login, u.password, NatToString(u.uid), NatToString(u.gid), u.name, u.home, u.shell]
        == a + ([Join(m, ':')] + b);
    JoinAppend(a, [Join(m, ':')] + b, ':');
    JoinAppend(a, m + b, ':');
    JoinAppend(m, b, ':');
    assert a + m + b == a + (m + b);
  }

  /** A written passwd line reads back as the user it was written from. */
  lemma ParseUserLine(u: User)
    requires WellFormedUser(u)
    ensures ParseUser(UserLine(u)) == Some(u)
  {
    var a := [u.login, u.password, NatToString(u.uid), NatToString(u.gid)];
    var m := Split(u.name, ':');
    var parts := a + m + [u.home, u.shell];
    UserLineFields(u);
    assert forall i :: 0 <= i < |parts| ==> ':' !in parts[i] by {
      forall i | 0 <= i < |parts|
        ensures ':' !in parts[i]
      {
        if 4 <= i < 4 + |m| {
          assert parts[i] == m[i - 4];
        }
      }
    }
    SplitJoin(parts, ':');
    var n := |parts|;
    assert parts[0] == u.login && parts[1] == u.password;
    assert parts[2] == NatToString(u.uid) && parts[3] == NatToString(u.gid);
    assert parts[n - 2] == u.home && parts[n - 1] == u.shell;
    assert parts[4..n - 2] == m;
    JoinSplit(u.name, ':');
    ParseUserOf(UserLine(u), parts);
  }

  /** A line whose fields pass the checks reads as the user they spell. */
  lemma ParseUserOf(line: string, f: seq<string>)
    requires Split(line, ':') == f && |f| >= 7
    requires IsName(f[0]) && IsNumber(f[2]) && IsNumber(f[3]) && f[|f| - 2] != [] && f[|f| - 1] != []
    ensures ParseUser(line) == Some(User(f[0], f[1], DigitsValue(f[2]), DigitsValue(f[3]), Join(f[4..|f| - 2], ':'), f[|f| - 2], f[|f| - 1]))
  {
  }

  /** A written shadow line reads back as its login and the rest. */
  lemma ParseShadowLine(login: string, rest: string)
    requires IsName(login)
    ensures ParseShadow(ShadowLine(login, rest)) == Some((login, rest))
  {
    FindAfter(login, rest, ':');
    var line := ShadowLine(login, rest);
    assert line == login + [':'] + rest;
    assert line[..|login|] == login && line[|login| + 1..] == rest;
  }

  /** Distinct non-empty names are their own member set. */
  lemma {:induction false} MembersOfDistinct(ms: seq<string>)
    requires Distinct(ms) && forall i :: 0 <= i < |ms| ==> ms[i] != []
    ensures Members(ms) == ms
  {
    if ms != [] {
      var init := ms[..|ms| - 1];
      MembersOfDistinct(init);
      assert ms[|ms| - 1] !in init;
      assert ms == init + [ms[|ms| - 1]];
    }
  }

  /** A joined member list has no colon and is a valid member field. */
  lemma MemberListField(ms: seq<string>)
    requires forall i :: 0 <= i < |ms| ==> IsName(ms[i])
    ensures ':' !in Join(ms, ',') && IsMembersField(Join(ms, ','))
  {
    var s := Join(ms, ',');
    forall x | x in s
      ensures IsNameChar(x) || x == ','
    {
      JoinElements(ms, ',', x);
      if x != ',' {
        var i :| 0 <= i < |ms| && x in ms[i];
        var j :| 0 <= j < |ms[i]| && ms[i][j] == x;
      }
    }
  }

  /** The member list of a written group line reads back as written. */
  lemma MembersOfJoin(ms: seq<string>)
    requires Distinct(ms) && forall i :: 0 <= i < |ms| ==> IsName(ms[i])
    ensures Members(Split(Join(ms, ','), ',')) == ms
  {
    if ms != [] {
      forall i | 0 <= i < |ms|
        ensures ',' !in ms[i]
      {
        assert forall j :: 0 <= j < |ms[i]| ==> ms[i][j] != ',';
      }
      SplitJoin(ms, ',');
      MembersOfDistinct(ms);
    }
  }

  /** A written group line reads back as the group, with its members in
      the order they were written. */
  lemma ParseGroupLine(g: Group, ms: seq<string>)
    requires IsName(g.name) && ':' !in g.password
    requires Distinct(ms) && forall i :: 0 <= i < |ms| ==> IsName(ms[i])
    ensures ParseGroup(GroupLine(g, ms)) == Some(g.(members := ms))
  {
    var parts := [g.name, g.password, NatToString(g.gid), Join(ms, ',')];
    MemberListField(ms);
    assert ':' !in g.name by {
      assert forall j :: 0 <= j < |g.name| ==> g.name[j] != ':';
    }
    assert forall i :: 0 <= i < |parts| ==> ':' !in parts[i];
    SplitJoin(parts, ':');
    MembersOfJoin(ms);
  }

  // ---------------------------------------------------------------------
  // The tables read from the files

  /** Every entry is filed under its own login and is not one of Prologin's. */
  predicate KeptUsers(d: Dict<string, User>)
  {
    forall i :: 0 <= i < |d| ==> d[i].0 == d[i].1.login && !IsProloginUid(d[i].1.uid)
  }

  /** The users of /etc/passwd that Prologin does not handle, by login;
      none at all when a line does not parse. */
  function PasswdUsers(lines: seq<string>): (r: Option<Dict<string, User>>)
    ensures r.Some? <==> forall i :: 0 <= i < |lines| ==> ParseUser(lines[i]).Some?
    ensures r.Some? ==> UniqueKeys(r.value) && KeptUsers(r.value)
  {
    if lines == [] then Some([])
    else
      var init := lines[..|lines| - 1];
      assert forall i :: 0 <= i < |init| ==> init[i] == lines[i];
      match PasswdUsers(init)
      case None => None
      case Some(d) =>
        match ParseUser(lines[|lines| - 1])
        case None => None
        case Some(u) =>
          if IsProloginUid(u.uid) then Some(d)
          else
            PutKept(d, u);
            Some(Put(d, u.login, u))
  }

  /** Filing a user outside Prologin's range under its login keeps every
      entry filed under its own login and outside that range. */
  lemma PutKept(d: Dict<string, User>, u: User)
    requires KeptUsers(d) && !IsProloginUid(u.uid)
    ensures KeptUsers(Put(d, u.login, u))
  {
    var r := Put(d, u.login, u);
    forall i | 0 <= i < |r|
      ensures r[i].0 == r[i].1.login && !IsProloginUid(r[i].1.uid)
    {
      if r[i] != (u.login, u) {
        var j :| 0 <= j < |d| && d[j] == r[i];
      }
    }
  }

  /** Every line of /etc/passwd with a uid outside Prologin's range has its
      login in the table. */
  lemma {:induction false} PasswdUsersKept(lines: seq<string>, i: nat)
    requires i < |lines| && PasswdUsers(lines).Some?
    requires !IsProloginUid(ParseUser(lines[i]).value.uid)
    ensures ParseUser(lines[i]).value.login in Keys(PasswdUsers(lines).value)
  {
    var init := lines[..|lines| - 1];
    if i < |lines| - 1 {
      assert init[i] == lines[i];
      PasswdUsersKept(init, i);
    }
  }

  /** The password part of each /etc/shadow line, by login; none at all
      when a line does not parse. */
  function ShadowPasswords(lines: seq<string>): (r: Option<Dict<string, string>>)
    ensures r.Some? <==> forall i :: 0 <= i < |lines| ==> ParseShadow(lines[i]).Some?
    ensures r.Some? ==> UniqueKeys(r.value)
  {
    if lines == [] then Some([])
    else
      var init := lines[..|lines| - 1];
      assert forall i :: 0 <= i < |init| ==> init[i] == lines[i];
      match ShadowPasswords(init)
      case None => None
      case Some(d) =>
        match ParseShadow(lines[|lines| - 1])
        case None => None
        case Some(e) => Some(Put(d, e.0, e.1))
  }

  /** Every line of /etc/shadow has its login in the table. */
  lemma {:induction false} ShadowPasswordsKept(lines: seq<string>, i: nat)
    requires i < |lines| && ShadowPasswords(lines).Some?
    ensures ParseShadow(lines[i]).value.0 in Keys(ShadowPasswords(lines).value)
  {
    var init := lines[..|lines| - 1];
    if i < |lines| - 1 {
      assert init[i] == lines[i];
      ShadowPasswordsKept(init, i);
    }
  }

  /** Every entry is filed under its own name and lists distinct members. */
  predicate GroupsNamed(d: Dict<string, Group>)
  {
    forall i :: 0 <= i < |d| ==> d[i].0 == d[i].1.name && Distinct(d[i].1.members)
  }

  /** The groups of /etc/group, by name; none at all when a line does not
      parse. */
  function GroupsOf(lines: seq<string>): (r: Option<Dict<string, Group>>)
    ensures r.Some? ==> UniqueKeys(r.value) && GroupsNamed(r.value)
  {
    if lines == [] then Some([])
    else
      match GroupsOf(lines[..|lines| - 1])
      case None => None
      case Some(d) =>
        match ParseGroup(lines[|lines| - 1])
        case None => None
        case Some(g) => Some(Put(d, g.name, g))
  }

  /** A line of /etc/group that does not parse stops the reading. */
  lemma {:induction false} GroupsOfUnparsable(lines: seq<string>, i: nat)
    requires i < |lines| && ParseGroup(lines[i]).None?
    ensures GroupsOf(lines).None?
  {
    if i < |lines| - 1 {
      var init := lines[..|lines| - 1];
      assert init[i] == lines[i];
      GroupsOfUnparsable(init, i);
    }
  }

  /** /etc/group is read when every line parses. */
  lemma {:induction false} GroupsOfParsed(lines: seq<string>)
    requires forall i :: 0 <= i < |lines| ==> ParseGroup(lines[i]).Some?
    ensures GroupsOf(lines).Some?
  {
    if lines != [] {
      var init := lines[..|lines| - 1];
      forall i | 0 <= i < |init|
        ensures ParseGroup(init[i]).Some?
      {
        assert init[i] == lines[i];
      }
      GroupsOfParsed(init);
    }
  }

  // ---------------------------------------------------------------------
  // Resetting Prologin's groups

  predicate HasProloginGroups(groups: Dict<string, Group>)
  {
    "user" in Keys(groups) && "orga" in Keys(groups)
  }

  /** A group of Prologin's after the reset: the one read, emptied, or a
      new empty one with password `x` and the given gid. */
  function Emptied(g: Option<Group>, name: string, gid: nat): Group
  {
    match g
    case None => Group(name, "x", gid, [])
    case Some(g) => g.(members := [])
  }

  function ResetGroup(groups: Dict<string, Group>, name: string, gid: nat): (r: Dict<string, Group>)
  {
    Put(groups, name, Emptied(Lookup(groups, name), name, gid))
  }

  /** The first `n` groups of ProloginGroups reset, in order. */
  function ResetFirst(groups: Dict<string, Group>, n: nat): Dict<string, Group>
    requires n <= |ProloginGroups|
  {
    if n == 0 then groups
    else ResetGroup(ResetFirst(groups, n - 1), ProloginGroups[n - 1].0, ProloginGroups[n - 1].1)
  }

  function ResetGroups(groups: Dict<string, Group>): Dict<string, Group>
  {
    ResetFirst(groups, |ProloginGroups|)
  }

  /** Resetting one group empties or creates it and changes no other. */
  lemma ResetGroupStep(groups: Dict<string, Group>, name: string, gid: nat)
    requires UniqueKeys(groups) && GroupsNamed(groups)
    ensures var r := ResetGroup(groups, name, gid);
      UniqueKeys(r) && GroupsNamed(r) &&
      (forall k :: k in Keys(r) <==> k in Keys(groups) || k == name) &&
      Lookup(r, name) == Some(Emptied(Lookup(groups, name), name, gid)) &&
      forall k :: k != name ==> Lookup(r, k) == Lookup(groups, k)
  {
    var g := Lookup(groups, name);
    if g.Some? {
      var i := Find(Keys(groups), name);
      assert groups[i].1 == g.value;
    }
  }

  /** The reset leaves both of Prologin's groups present and empty, keeps
      the gid of one that existed, gives a new one its gid, and changes no
      other group. */
  lemma ResetGroupsSpec(groups: Dict<string, Group>)
    requires UniqueKeys(groups) && GroupsNamed(groups)
    ensures var r := ResetGroups(groups);
      UniqueKeys(r) && GroupsNamed(r) && HasProloginGroups(r) &&
      Lookup(r, "user") == Some(Emptied(Lookup(groups, "user"), "user", UserGid)) &&
      Lookup(r, "orga") == Some(Emptied(Lookup(groups, "orga"), "orga", OrgaGid)) &&
      forall k :: k != "user" && k != "orga" ==> Lookup(r, k) == Lookup(groups, k)
  {
    assert "user" != "orga" by {
      assert "user"[0] != "orga"[0];
    }
    var once := ResetGroup(groups, "user", UserGid);
    assert ProloginGroups[0] == ("user", UserGid) && ProloginGroups[1] == ("orga", OrgaGid);
    assert ResetFirst(groups, 1) == once;
    assert ResetGroups(groups) == ResetGroup(once, "orga", OrgaGid);
    ResetGroupStep(groups, "user", UserGid);
    ResetGroupStep(once, "orga", OrgaGid);
  }

  // ---------------------------------------------------------------------
  // Adding the users of the database

  /** The three tables being rebuilt. */
  datatype Db = Db(passwd: Dict<string, User>, shadows: Dict<string, string>,
                   groups: Dict<string, Group>)

  /** The groups a user of each type joins, the first one giving the
      primary gid; an unknown type is none. */
  function UserGroups(utype: string): (r: Option<seq<string>>)
    ensures r.Some? ==> |r.value| > 0 && forall i :: 0 <= i < |r.value| ==> r.value[i] in {"user", "orga"}
  {
    if utype == "user" then Some(["user"])
    else if utype == "orga" || utype == "root" then Some(["orga", "user"])
    else None
  }

  /** The passwd entry of a database user. */
  function PasswdEntry(uu: UdbUser, groups: seq<string>): User
    requires |groups| > 0
  {
    User(uu.login, "x", uu.uid, ProloginGid(groups[0]), uu.firstname + " " + uu.lastname,
         "/home/" + uu.login, uu.shell)
  }

  /** The shadow entry for a password hash, changed `today` (in days since
      the epoch), changeable at once, valid 99999 days, with a 7-day
      warning. */
  function ShadowEntry(hash: string, today: int): string
  {
    hash + ":" + IntToString(today) + ":0:99999:7:0::"
  }

  /** `groups[name].members.add(login)`. The groups a user joins are the
      Prologin groups, which the rebuild has just reset, so the missing
      group the source would fail on does not arise; it is left unchanged
      here. */
  function AddToGroup(groups: Dict<string, Group>, name: string, login: string): (r: Dict<string, Group>)
    ensures Keys(r) == Keys(groups)
    ensures UniqueKeys(groups) ==> UniqueKeys(r)
  {
    match Lookup(groups, name)
    case None => groups
    case Some(g) => Put(groups, name, g.(members := AddMember(g.members, login)))
  }

  /** The login added to each group of `names`, in order. */
  function JoinAll(groups: Dict<string, Group>, names: seq<string>, login: string): (r: Dict<string, Group>)
    ensures Keys(r) == Keys(groups)
    ensures UniqueKeys(groups) ==> UniqueKeys(r)
    decreases |names|
  {
    if names == [] then groups
    else JoinAll(AddToGroup(groups, names[0], login), names[1..], login)
  }

  /** One database user added: the passwd and shadow entries filed under
      `key` and the login added to the user's groups; none when the user's
      type is unknown. */
  function AddUser(db: Db, key: string, uu: UdbUser, crypt: string -> string, today: int): (r: Option<Db>)
    ensures r.Some? <==> UserGroups(uu.group).Some?
    ensures r.Some? ==> Keys(r.value.groups) == Keys(db.groups)
    ensures r.Some? && UniqueKeys(db.groups) ==> UniqueKeys(r.value.groups)
    ensures r.Some? && UniqueKeys(db.passwd) ==> UniqueKeys(r.value.passwd)
    ensures r.Some? && UniqueKeys(db.shadows) ==> UniqueKeys(r.value.shadows)
  {
    match UserGroups(uu.group)
    case None => None
    case Some(names) =>
      Some(Db(Put(db.passwd, key, PasswdEntry(uu, names)),
              Put(db.shadows, key, ShadowEntry(crypt(uu.password), today)),
              JoinAll(db.groups, names, uu.login)))
  }

  /** The database users added in order; none when one has an unknown type. */
  function AddUsers(db: Db, users: Dict<string, UdbUser>, crypt: string -> string, today: int): (r: Option<Db>)
    ensures r.Some? ==> Keys(r.value.groups) == Keys(db.groups)
    ensures r.Some? && UniqueKeys(db.groups) ==> UniqueKeys(r.value.groups)
    ensures r.Some? && UniqueKeys(db.passwd) ==> UniqueKeys(r.value.passwd)
    ensures r.Some? && UniqueKeys(db.shadows) ==> UniqueKeys(r.value.shadows)
  {
    if users == [] then Some(db)
    else
      match AddUsers(db, users[..|users| - 1], crypt, today)
      case None => None
      case Some(d) => AddUser(d, users[|users| - 1].0, users[|users| - 1].1, crypt, today)
  }

  /** A database user of an unknown type stops the rebuild. */
  lemma {:induction false} AddUsersUnknownType(db: Db, users: Dict<string, UdbUser>, crypt: string -> string,
                                               today: int, i: nat)
    requires i < |users| && UserGroups(users[i].1.group).None?
    ensures AddUsers(db, users, crypt, today).None?
  {
    if i < |users| - 1 {
      var init := users[..|users| - 1];
      assert init[i] == users[i];
      AddUsersUnknownType(db, init, crypt, today, i);
    }
  }

  /** The database users are all added when every one has a known type. */
  lemma {:induction false} AddUsersKnownTypes(db: Db, users: Dict<string, UdbUser>, crypt: string -> string, today: int)
    requires forall i :: 0 <= i < |users| ==> UserGroups(users[i].1.group).Some?
    ensures AddUsers(db, users, crypt, today).Some?
  {
    if users != [] {
      var init := users[..|users| - 1];
      forall i | 0 <= i < |init|
        ensures UserGroups(init[i].1.group).Some?
      {
        assert init[i] == users[i];
      }
      AddUsersKnownTypes(db, init, crypt, today);
    }
  }

  /** Whether `m` is listed as a member of the group `name`. */
  predicate IsMember(groups: Dict<string, Group>, name: string, m: string)
  {
    match Lookup(groups, name)
    case Some(g) => m in g.members
    case None => false
  }

  /** Adding a login to a group makes it a member of that group and
      changes no other group. */
  lemma AddToGroupMembers(groups: Dict<string, Group>, name: string, login: string, k: string, m: string)
    requires UniqueKeys(groups)
    ensures var r := AddToGroup(groups, name, login);
      IsMember(r, k, m) <==> IsMember(groups, k, m) || (k == name && k in Keys(groups) && m == login)
    ensures k != name ==> Lookup(AddToGroup(groups, name, login), k) == Lookup(groups, k)
  {
  }

  /** Adding a login to the groups of `names` makes it a member of those
      and changes no other group. */
  lemma {:induction false} JoinAllMembers(groups: Dict<string, Group>, names: seq<string>,
                                          login: string, k: string, m: string)
    requires UniqueKeys(groups)
    ensures IsMember(JoinAll(groups, names, login), k, m) <==>
      IsMember(groups, k, m) || (k in names && k in Keys(groups) && m == login)
    ensures k !in names ==> Lookup(JoinAll(groups, names, login), k) == Lookup(groups, k)
    decreases |names|
  {
    if names != [] {
      var next := AddToGroup(groups, names[0], login);
      JoinAllMembers(next, names[1..], login, k, m);
      AddToGroupMembers(groups, names[0], login, k, m);
      assert names == [names[0]] + names[1..];
    }
  }

  /** The user types whose users join group `k`. */
  function JoiningTypes(k: string): set<string>
  {
    if k == "user" then {"user", "orga", "root"}
    else if k == "orga" then {"orga", "root"}
    else {}
  }

  /** One of the database users has login `m` and a type that joins `k`. */
  predicate Joins(users: Dict<string, UdbUser>, k: string, m: string)
  {
    exists i :: 0 <= i < |users| && users[i].1.login == m && users[i].1.group in JoiningTypes(k)
  }

  /** The group table read the other way round. */
  lemma UserGroupsJoining(utype: string, k: string)
    requires UserGroups(utype).Some?
    ensures k in UserGroups(utype).value <==> utype in JoiningTypes(k)
  {
  }

  /** Adding one database user makes its login a member of exactly the
      groups its type joins. */
  lemma AddUserMembers(db: Db, key: string, uu: UdbUser, crypt: string -> string, today: int, k: string, m: string)
    requires UniqueKeys(db.groups) && HasProloginGroups(db.groups) && UserGroups(uu.group).Some?
    ensures IsMember(AddUser(db, key, uu, crypt, today).value.groups, k, m) <==>
      IsMember(db.groups, k, m) || (m == uu.login && uu.group in JoiningTypes(k))
  {
    var names := UserGroups(uu.group).value;
    JoinAllMembers(db.groups, names, uu.login, k, m);
    UserGroupsJoining(uu.group, k);
  }

  /** Some database user joins `k` as `m` when an earlier one does or the
      last one does. */
  lemma JoinsLast(users: Dict<string, UdbUser>, k: string, m: string)
    requires users != []
    ensures var last := users[|users| - 1].1;
      Joins(users, k, m) <==> Joins(users[..|users| - 1], k, m) || (last.login == m && last.group in JoiningTypes(k))
  {
    var init := users[..|users| - 1];
    if Joins(users, k, m) {
      var i :| 0 <= i < |users| && users[i].1.login == m && users[i].1.group in JoiningTypes(k);
      if i < |init| {
        assert init[i] == users[i];
      }
    }
    if Joins(init, k, m) {
      var i :| 0 <= i < |init| && init[i].1.login == m && init[i].1.group in JoiningTypes(k);
      assert users[i] == init[i];
    }
  }

  /** After the database users are added, the members of a group are those
      it had and the logins of the users whose type joins it: every user
      joins `user`, the `orga` and `root` users also join `orga`, and no
      other group changes. */
  lemma {:induction false} AddUsersMembers(db: Db, users: Dict<string, UdbUser>, crypt: string -> string,
                                           today: int, k: string, m: string)
    requires UniqueKeys(db.groups) && HasProloginGroups(db.groups)
    requires AddUsers(db, users, crypt, today).Some?
    ensures IsMember(AddUsers(db, users, crypt, today).value.groups, k, m) <==>
      IsMember(db.groups, k, m) || Joins(users, k, m)
  {
    if users != [] {
      var init := users[..|users| - 1];
      var last := users[|users| - 1];
      var d := AddUsers(db, init, crypt, today).value;
      AddUsersMembers(db, init, crypt, today, k, m);
      AddUserMembers(d, last.0, last.1, crypt, today, k, m);
      JoinsLast(users, k, m);
    }
  }

  /** The tables hold one entry per key. */
  predicate UniqueDb(db: Db)
  {
    UniqueKeys(db.passwd) && UniqueKeys(db.shadows) && UniqueKeys(db.groups)
  }

  /** A prefix of a dictionary has distinct keys too. */
  lemma UniqueKeysInit<V>(d: Dict<string, V>)
    requires d != [] && UniqueKeys(d)
    ensures UniqueKeys(d[..|d| - 1]) && d[|d| - 1].0 !in Keys(d[..|d| - 1])
  {
    var init := d[..|d| - 1];
    assert forall i :: 0 <= i < |init| ==> init[i] == d[i];
  }

  /** Each database user gets the passwd entry its type calls for, with the
      login's home directory and the gid of its first group, and a shadow
      entry holding the hash of its password, both under its key. */
  lemma {:induction false} AddUsersEntries(db: Db, users: Dict<string, UdbUser>, crypt: string -> string,
                                           today: int, i: nat)
    requires UniqueDb(db) && UniqueKeys(users) && i < |users|
    requires AddUsers(db, users, crypt, today).Some? && UserGroups(users[i].1.group).Some?
    ensures var r := AddUsers(db, users, crypt, today).value;
      var uu := users[i].1;
      Lookup(r.passwd, users[i].0) == Some(PasswdEntry(uu, UserGroups(uu.group).value)) &&
      Lookup(r.shadows, users[i].0) == Some(ShadowEntry(crypt(uu.password), today))
  {
    var init := users[..|users| - 1];
    UniqueKeysInit(users);
    var key := users[i].0;
    AddUsersStep(db, users, crypt, today, key);
    if i < |users| - 1 {
      assert init[i] == users[i] && key in Keys(init);
      assert key != users[|users| - 1].0;
      AddUsersEntries(db, init, crypt, today, i);
    }
  }

  /** Adding the last database user files its entries under its key and
      leaves every other key's entries as the users before it left them. */
  lemma AddUsersStep(db: Db, users: Dict<string, UdbUser>, crypt: string -> string, today: int, key: string)
    requires UniqueDb(db) && users != []
    requires AddUsers(db, users, crypt, today).Some?
    ensures var init := users[..|users| - 1];
      var last := users[|users| - 1];
      var d := AddUsers(db, init, crypt, today);
      var r := AddUsers(db, users, crypt, today).value;
      d.Some? && UserGroups(last.1.group).Some? &&
      Lookup(r.passwd, key) == (if key == last.0 then Some(PasswdEntry(last.1, UserGroups(last.1.group).value))
                                else Lookup(d.value.passwd, key)) &&
      Lookup(r.shadows, key) == (if key == last.0 then Some(ShadowEntry(crypt(last.1.password), today))
                                 else Lookup(d.value.shadows, key))
  {
  }

  /** The entries under keys that are not the database's stay as they
      were. */
  lemma {:induction false} AddUsersOthers(db: Db, users: Dict<string, UdbUser>, crypt: string -> string,
                                          today: int, key: string)
    requires UniqueDb(db) && key !in Keys(users)
    requires AddUsers(db, users, crypt, today).Some?
    ensures var r := AddUsers(db, users, crypt, today).value;
      Lookup(r.passwd, key) == Lookup(db.passwd, key) && Lookup(r.shadows, key) == Lookup(db.shadows, key)
  {
    if users != [] {
      var init := users[..|users| - 1];
      assert forall j :: 0 <= j < |init| ==> Keys(init)[j] == Keys(users)[j];
      AddUsersOthers(db, init, crypt, today, key);
    }
  }

  // ---------------------------------------------------------------------
  // The consistency checks

  /** Why a rebuild stops before writing anything. */
  datatype Failure =
    | UnparsablePasswd
    | UnparsableShadow
    | UnparsableGroup
    | UnknownUserType
    | UserlessShadows(logins: set<string>)
    | ShadowlessUsers(logins: set<string>)
    | MembersWithoutUser(logins: set<string>)

  /** The keys of a table, as a set. */
  function KeySet<V>(d: Dict<string, V>): (r: set<string>)
    ensures forall k :: k in r <==> k in Keys(d)
  {
    set i | 0 <= i < |d| :: d[i].0
  }

  /** The three files read and Prologin's groups reset; the first file
      with a line that does not parse stops the reading. */
  function ReadFiles(passwdLines: seq<string>, shadowLines: seq<string>, groupLines: seq<string>): (r: Result<Db, Failure>)
    ensures r.Ok? ==> UniqueDb(r.value) && HasProloginGroups(r.value.groups)
  {
    match PasswdUsers(passwdLines)
    case None => Err(UnparsablePasswd)
    case Some(p) =>
      match ShadowPasswords(shadowLines)
      case None => Err(UnparsableShadow)
      case Some(sh) =>
        match GroupsOf(groupLines)
        case None => Err(UnparsableGroup)
        case Some(g) =>
          ResetGroupsSpec(g);
          Ok(Db(p, sh, ResetGroups(g)))
  }

  /** The passwd and shadow logins compared: the rebuild goes on only
      when they are the same, and otherwise names the logins in excess on
      one side, the shadow side first. */
  function CheckLogins(db: Db): (r: Result<Db, Failure>)
    ensures r.Ok? <==> KeySet(db.passwd) == KeySet(db.shadows)
    ensures r.Ok? ==> r.value == db
    ensures r.Err? ==> (r.error.UserlessShadows? || r.error.ShadowlessUsers?) && r.error.logins != {}
  {
    var userless := KeySet(db.shadows) - KeySet(db.passwd);
    var shadowless := KeySet(db.passwd) - KeySet(db.shadows);
    if userless != {} then Err(UserlessShadows(userless))
    else if shadowless != {} then Err(ShadowlessUsers(shadowless))
    else Ok(db)
  }

  /** The three files read, Prologin's groups reset, the database users
      added, and the passwd and shadow logins compared. */
  function Merge(passwdLines: seq<string>, shadowLines: seq<string>, groupLines: seq<string>,
                 users: Dict<string, UdbUser>, crypt: string -> string, today: int): (r: Result<Db, Failure>)
    ensures r.Ok? ==> UniqueDb(r.value) && HasProloginGroups(r.value.groups)
    ensures r.Ok? ==> KeySet(r.value.passwd) == KeySet(r.value.shadows)
  {
    match ReadFiles(passwdLines, shadowLines, groupLines)
    case Err(f) => Err(f)
    case Ok(db) =>
      match AddUsers(db, users, crypt, today)
      case None => Err(UnknownUserType)
      case Some(db') => CheckLogins(db')
  }

  // ---------------------------------------------------------------------
  // The files written

  /** The passwd entries in order of uid. */
  function SortedUsers(passwd: Dict<string, User>): (r: seq<User>)
    ensures SortedBy(r, (u: User) => u.uid)
    ensures multiset(r) == multiset(Values(passwd))
  {
    SortBySorted(Values(passwd), (u: User) => u.uid);
    SortBy(Values(passwd), (u: User) => u.uid)
  }

  /** The groups in order of gid. */
  function SortedGroups(groups: Dict<string, Group>): (r: seq<Group>)
    ensures SortedBy(r, (g: Group) => g.gid)
    ensures multiset(r) == multiset(Values(groups))
  {
    SortBySorted(Values(groups), (g: Group) => g.gid);
    SortBy(Values(groups), (g: Group) => g.gid)
  }

  /** The uid of a login; only asked of logins that have an entry. */
  function UidOf(passwd: Dict<string, User>, login: string): int
  {
    match Lookup(passwd, login)
    case Some(u) => u.uid
    case None => 0
  }

  /** A group's members in order of their uid. */
  function SortedMembers(members: seq<string>, passwd: Dict<string, User>): (r: seq<string>)
    ensures SortedBy(r, m => UidOf(passwd, m))
    ensures multiset(r) == multiset(members)
  {
    SortBySorted(members, m => UidOf(passwd, m));
    SortBy(members, m => UidOf(passwd, m))
  }

  /** /etc/passwd: one line per user, in the given order. */
  function PasswdFile(us: seq<User>): (r: seq<string>)
    ensures |r| == |us| && forall i :: 0 <= i < |us| ==> r[i] == UserLine(us[i])
  {
    seq(|us|, i requires 0 <= i < |us| => UserLine(us[i]))
  }

  /** /etc/shadow: the shadow entry of each user in the given order, those
      without one skipped. */
  function ShadowFile(us: seq<User>, shadows: Dict<string, string>): (r: seq<string>)
    ensures |r| <= |us|
  {
    if us == [] then []
    else
      var u := us[|us| - 1];
      var line := match Lookup(shadows, u.login)
        case Some(rest) => [ShadowLine(u.login, rest)]
        case None => [];
      ShadowFile(us[..|us| - 1], shadows) + line
  }

  /** All the members of a group have a passwd entry. */
  predicate MembersKnown(g: Group, passwd: Dict<string, User>)
  {
    forall i :: 0 <= i < |g.members| ==> g.members[i] in Keys(passwd)
  }

  /** /etc/group: one line per group in the given order, its members
      sorted by uid. */
  function GroupFile(gs: seq<Group>, passwd: Dict<string, User>): (r: seq<string>)
    ensures |r| == |gs|
    ensures forall i :: 0 <= i < |gs| ==> r[i] == GroupLine(gs[i], SortedMembers(gs[i].members, passwd))
  {
    seq(|gs|, i requires 0 <= i < |gs| => GroupLine(gs[i], SortedMembers(gs[i].members, passwd)))
  }

  /** The number of groups before the first one with a member that has
      no passwd entry. */
  function KnownPrefix(gs: seq<Group>, passwd: Dict<string, User>): (n: nat)
    ensures n <= |gs|
    ensures forall i :: 0 <= i < n ==> MembersKnown(gs[i], passwd)
    ensures n < |gs| ==> !MembersKnown(gs[n], passwd)
  {
    if gs == [] then 0
    else if !MembersKnown(gs[0], passwd) then 0
    else
      var n := KnownPrefix(gs[1..], passwd);
      assert forall i :: 1 <= i < |gs| ==> gs[1..][i - 1] == gs[i];
      n + 1
  }

  /** /etc/group as the source writes it: sorting the members of a group
      looks each one up in the passwd table, so the first group with a
      member that has no entry stops the writing there; the lines written
      so far are still moved into place. The flag tells whether every
      group was written. */
  function GroupFileAsWritten(gs: seq<Group>, passwd: Dict<string, User>): (r: (seq<string>, bool))
    ensures r.1 <==> forall i :: 0 <= i < |gs| ==> MembersKnown(gs[i], passwd)
    ensures r.1 ==> r.0 == GroupFile(gs, passwd)
    ensures !r.1 ==> |r.0| < |gs| && r.0 == GroupFile(gs, passwd)[..|r.0|] && !MembersKnown(gs[|r.0|], passwd)
  {
    var n := KnownPrefix(gs, passwd);
    assert n == |gs| ==> gs[..n] == gs;
    (GroupFile(gs[..n], passwd), n == |gs|)
  }

  // ---------------------------------------------------------------------
  // The rebuild

  /** What a rebuild leaves behind: nothing written, the three files
      written, or /etc/passwd and /etc/shadow written and /etc/group
      replaced by the lines written before the rebuild failed. */
  datatype Outcome =
    | Aborted(failure: Failure)
    | Written(passwd: seq<string>, shadow: seq<string>, group: seq<string>)
    | GroupWriteFailed(passwd: seq<string>, shadow: seq<string>, group: seq<string>)

  /** The rebuild as the source does it. */
  function GenerateAsWritten(passwdLines: seq<string>, shadowLines: seq<string>, groupLines: seq<string>,
                             users: Dict<string, UdbUser>, crypt: string -> string, today: int): Outcome
  {
    match Merge(passwdLines, shadowLines, groupLines, users, crypt, today)
    case Err(f) => Aborted(f)
    case Ok(db) =>
      var us := SortedUsers(db.passwd);
      var group := GroupFileAsWritten(SortedGroups(db.groups), db.passwd);
      if group.1 then Written(PasswdFile(us), ShadowFile(us, db.shadows), group.0)
      else GroupWriteFailed(PasswdFile(us), ShadowFile(us, db.shadows), group.0)
  }

  /** The group members that have no passwd entry. */
  function UnknownMembers(groups: Dict<string, Group>, passwd: Dict<string, User>): (r: set<string>)
    ensures r == {} <==> forall i :: 0 <= i < |groups| ==> MembersKnown(groups[i].1, passwd)
  {
    var r := set i, j | 0 <= i < |groups| && 0 <= j < |groups[i].1.members| && groups[i].1.members[j] !in Keys(passwd)
      :: groups[i].1.members[j];
    if exists i :: 0 <= i < |groups| && !MembersKnown(groups[i].1, passwd) then
      var i :| 0 <= i < |groups| && !MembersKnown(groups[i].1, passwd);
      var j :| 0 <= j < |groups[i].1.members| && groups[i].1.members[j] !in Keys(passwd);
      assert groups[i].1.members[j] in r;
      r
    else
      r
  }

  /** The rebuild with the members checked along with the other
      consistency checks, before anything is written. */
  function Generate(passwdLines: seq<string>, shadowLines: seq<string>, groupLines: seq<string>,
                    users: Dict<string, UdbUser>, crypt: string -> string, today: int): (r: Outcome)
    ensures !r.GroupWriteFailed?
  {
    match Merge(passwdLines, shadowLines, groupLines, users, crypt, today)
    case Err(f) => Aborted(f)
    case Ok(db) =>
      var missing := UnknownMembers(db.groups, db.passwd);
      if missing != {} then Aborted(MembersWithoutUser(missing))
      else
        var us := SortedUsers(db.passwd);
        Written(PasswdFile(us), ShadowFile(us, db.shadows), GroupFile(SortedGroups(db.groups), db.passwd))
  }

  /** A line of /etc/passwd that does not parse stops the rebuild before
      anything is written. */
  lemma PasswdUnparsableAborts(passwdLines: seq<string>, shadowLines: seq<string>, groupLines: seq<string>,
                               users: Dict<string, UdbUser>, crypt: string -> string, today: int, i: nat)
    requires i < |passwdLines| && ParseUser(passwdLines[i]).None?
    ensures GenerateAsWritten(passwdLines, shadowLines, groupLines, users, crypt, today) == Aborted(UnparsablePasswd)
    ensures Generate(passwdLines, shadowLines, groupLines, users, crypt, today) == Aborted(UnparsablePasswd)
  {
  }

  /** So does a line of /etc/shadow, once /etc/passwd has been read. */
  lemma ShadowUnparsableAborts(passwdLines: seq<string>, shadowLines: seq<string>, groupLines: seq<string>,
                               users: Dict<string, UdbUser>, crypt: string -> string, today: int, i: nat)
    requires PasswdUsers(passwdLines).Some?
    requires i < |shadowLines| && ParseShadow(shadowLines[i]).None?
    ensures GenerateAsWritten(passwdLines, shadowLines, groupLines, users, crypt, today) == Aborted(UnparsableShadow)
    ensures Generate(passwdLines, shadowLines, groupLines, users, crypt, today) == Aborted(UnparsableShadow)
  {
    assert ShadowPasswords(shadowLines).None?;
    assert ReadFiles(passwdLines, shadowLines, groupLines) == Err(UnparsableShadow);
    assert Merge(passwdLines, shadowLines, groupLines, users, crypt, today) == Err(UnparsableShadow);
  }

  /** And a line of /etc/group, once the other two have been read. */
  lemma GroupUnparsableAborts(passwdLines: seq<string>, shadowLines: seq<string>, groupLines: seq<string>,
                              users: Dict<string, UdbUser>, crypt: string -> string, today: int, i: nat)
    requires PasswdUsers(passwdLines).Some? && ShadowPasswords(shadowLines).Some?
    requires i < |groupLines| && ParseGroup(groupLines[i]).None?
    ensures GenerateAsWritten(passwdLines, shadowLines, groupLines, users, crypt, today) == Aborted(UnparsableGroup)
    ensures Generate(passwdLines, shadowLines, groupLines, users, crypt, today) == Aborted(UnparsableGroup)
  {
    GroupsOfUnparsable(groupLines, i);
  }

  /** A user of /etc/passwd outside Prologin's uid range keeps an entry
      under its login, unless the database has a user of that login. */
  lemma MergeKeepsSystemUsers(passwdLines: seq<string>, shadowLines: seq<string>, groupLines: seq<string>,
                              users: Dict<string, UdbUser>, crypt: string -> string, today: int, i: nat)
    requires Merge(passwdLines, shadowLines, groupLines, users, crypt, today).Ok?
    requires i < |passwdLines| && !IsProloginUid(ParseUser(passwdLines[i]).value.uid)
    requires ParseUser(passwdLines[i]).value.login !in Keys(users)
    ensures ParseUser(passwdLines[i]).value.login in
      KeySet(Merge(passwdLines, shadowLines, groupLines, users, crypt, today).value.passwd)
  {
    var p := PasswdUsers(passwdLines).value;
    var sh := ShadowPasswords(shadowLines).value;
    var g := GroupsOf(groupLines).value;
    var login := ParseUser(passwdLines[i]).value.login;
    PasswdUsersKept(passwdLines, i);
    ResetGroupsSpec(g);
    AddUsersOthers(Db(p, sh, ResetGroups(g)), users, crypt, today, login);
  }

  /** The entries left with a uid in Prologin's range are the database's:
      the accounts of /etc/passwd in that range are dropped. */
  lemma MergeDropsProloginUsers(passwdLines: seq<string>, shadowLines: seq<string>, groupLines: seq<string>,
                                users: Dict<string, UdbUser>, crypt: string -> string, today: int, key: string)
    requires Merge(passwdLines, shadowLines, groupLines, users, crypt, today).Ok?
    requires key in Keys(Merge(passwdLines, shadowLines, groupLines, users, crypt, today).value.passwd)
    requires key !in Keys(users)
    ensures !IsProloginUid(Lookup(Merge(passwdLines, shadowLines, groupLines, users, crypt, today).value.passwd, key).value.uid)
  {
    var p := PasswdUsers(passwdLines).value;
    var sh := ShadowPasswords(shadowLines).value;
    var g := GroupsOf(groupLines).value;
    ResetGroupsSpec(g);
    AddUsersOthers(Db(p, sh, ResetGroups(g)), users, crypt, today, key);
    var j := Find(Keys(p), key);
    assert p[j].0 == key;
  }

  /** After the merge, the members of Prologin's groups are exactly the
      database users their type sends there; the other groups keep the
      members /etc/group gave them. */
  lemma MergeMembers(passwdLines: seq<string>, shadowLines: seq<string>, groupLines: seq<string>,
                     users: Dict<string, UdbUser>, crypt: string -> string, today: int, k: string, m: string)
    requires Merge(passwdLines, shadowLines, groupLines, users, crypt, today).Ok?
    ensures IsMember(Merge(passwdLines, shadowLines, groupLines, users, crypt, today).value.groups, k, m) <==>
      Joins(users, k, m) || (k != "user" && k != "orga" && IsMember(GroupsOf(groupLines).value, k, m))
  {
    var p := PasswdUsers(passwdLines).value;
    var sh := ShadowPasswords(shadowLines).value;
    var g := GroupsOf(groupLines).value;
    ResetGroupsSpec(g);
    AddUsersMembers(Db(p, sh, ResetGroups(g)), users, crypt, today, k, m);
  }

  /** Every entry is filed under its own login. */
  predicate KeyedByLogin(d: Dict<string, User>)
  {
    forall i :: 0 <= i < |d| ==> d[i].0 == d[i].1.login
  }

  /** The database hands its users out by login. */
  predicate UdbKeyedByLogin(users: Dict<string, UdbUser>)
  {
    forall i :: 0 <= i < |users| ==> users[i].0 == users[i].1.login
  }

  /** Adding database users keyed by login keeps the passwd table keyed
      by login. */
  lemma {:induction false} AddUsersKeyed(db: Db, users: Dict<string, UdbUser>, crypt: string -> string, today: int)
    requires KeyedByLogin(db.passwd) && UdbKeyedByLogin(users)
    requires AddUsers(db, users, crypt, today).Some?
    ensures KeyedByLogin(AddUsers(db, users, crypt, today).value.passwd)
  {
    if users != [] {
      var init := users[..|users| - 1];
      assert forall i :: 0 <= i < |init| ==> init[i] == users[i];
      AddUsersKeyed(db, init, crypt, today);
    }
  }

  /** With a shadow entry for every user, /etc/shadow has one line per
      user, in the same order as /etc/passwd. */
  lemma {:induction false} ShadowFileAligned(us: seq<User>, shadows: Dict<string, string>)
    requires forall i :: 0 <= i < |us| ==> us[i].login in Keys(shadows)
    ensures |ShadowFile(us, shadows)| == |us|
    ensures forall i :: 0 <= i < |us| ==>
      ShadowFile(us, shadows)[i] == ShadowLine(us[i].login, Lookup(shadows, us[i].login).value)
  {
    forall i | 0 <= i < |us|
      ensures |ShadowFile(us, shadows)| == |us|
      ensures ShadowFile(us, shadows)[i] == ShadowLine(us[i].login, Lookup(shadows, us[i].login).value)
    {
      ShadowFileAt(us, shadows, i);
    }
    if us == [] {
      assert ShadowFile(us, shadows) == [];
    }
  }

  lemma {:induction false} ShadowFileAt(us: seq<User>, shadows: Dict<string, string>, i: nat)
    requires forall j :: 0 <= j < |us| ==> us[j].login in Keys(shadows)
    requires i < |us|
    decreases |us|
    ensures |ShadowFile(us, shadows)| == |us|
    ensures ShadowFile(us, shadows)[i] == ShadowLine(us[i].login, Lookup(shadows, us[i].login).value)
  {
    var init := us[..|us| - 1];
    var u := us[|us| - 1];
    assert forall j :: 0 <= j < |init| ==> init[j] == us[j];
    assert ShadowFile(us, shadows) == ShadowFile(init, shadows) + [ShadowLine(u.login, Lookup(shadows, u.login).value)];
    if init == [] {
      assert ShadowFile(init, shadows) == [];
    } else if i < |init| {
      ShadowFileAt(init, shadows, i);
    } else {
      ShadowFileAt(init, shadows, 0);
    }
  }

  /** A user in the sorted list is one of the table's, so has its login
      among the table's keys. */
  lemma SortedUserKeyed(passwd: Dict<string, User>, u: User)
    requires KeyedByLogin(passwd) && u in SortedUsers(passwd)
    ensures u.login in KeySet(passwd)
  {
    var vs := Values(passwd);
    assert u in multiset(vs);
    var j :| 0 <= j < |vs| && vs[j] == u;
    assert passwd[j].0 == u.login;
  }

  /** When the rebuild goes ahead, every user written to /etc/passwd has
      a shadow entry under its login, so that (ShadowFileAligned)
      /etc/shadow holds one line per line of /etc/passwd, for the same
      login in the same place. */
  lemma MergeShadowAligned(passwdLines: seq<string>, shadowLines: seq<string>, groupLines: seq<string>,
                           users: Dict<string, UdbUser>, crypt: string -> string, today: int)
    requires UdbKeyedByLogin(users)
    requires Merge(passwdLines, shadowLines, groupLines, users, crypt, today).Ok?
    ensures var db := Merge(passwdLines, shadowLines, groupLines, users, crypt, today).value;
      forall i :: 0 <= i < |SortedUsers(db.passwd)| ==> SortedUsers(db.passwd)[i].login in Keys(db.shadows)
  {
    var p := PasswdUsers(passwdLines).value;
    var sh := ShadowPasswords(shadowLines).value;
    var g := GroupsOf(groupLines).value;
    ResetGroupsSpec(g);
    AddUsersKeyed(Db(p, sh, ResetGroups(g)), users, crypt, today);
    var db := Merge(passwdLines, shadowLines, groupLines, users, crypt, today).value;
    var us := SortedUsers(db.passwd);
    forall i | 0 <= i < |us|
      ensures us[i].login in Keys(db.shadows)
    {
      SortedUserKeyed(db.passwd, us[i]);
    }
  }

  /** The sorted groups all have known members exactly when the table's
      groups do. */
  lemma SortedGroupsKnown(groups: Dict<string, Group>, passwd: Dict<string, User>)
    ensures (forall i :: 0 <= i < |SortedGroups(groups)| ==> MembersKnown(SortedGroups(groups)[i], passwd))
      <==> UnknownMembers(groups, passwd) == {}
  {
    var gs := SortedGroups(groups);
    var vs := Values(groups);
    if forall i :: 0 <= i < |gs| ==> MembersKnown(gs[i], passwd) {
      forall i | 0 <= i < |groups|
        ensures MembersKnown(groups[i].1, passwd)
      {
        assert vs[i] in multiset(gs);
        var j :| 0 <= j < |gs| && gs[j] == vs[i];
      }
    }
    if UnknownMembers(groups, passwd) == {} {
      forall i | 0 <= i < |gs|
        ensures MembersKnown(gs[i], passwd)
      {
        assert gs[i] in multiset(vs);
        var j :| 0 <= j < |vs| && vs[j] == gs[i];
      }
    }
  }

  /** When every member has a passwd entry, the rebuild as written and
      the corrected one do the same. */
  lemma GenerateAgrees(passwdLines: seq<string>, shadowLines: seq<string>, groupLines: seq<string>,
                       users: Dict<string, UdbUser>, crypt: string -> string, today: int)
    requires var m := Merge(passwdLines, shadowLines, groupLines, users, crypt, today);
      m.Err? || UnknownMembers(m.value.groups, m.value.passwd) == {}
    ensures GenerateAsWritten(passwdLines, shadowLines, groupLines, users, crypt, today)
         == Generate(passwdLines, shadowLines, groupLines, users, crypt, today)
  {
    var m := Merge(passwdLines, shadowLines, groupLines, users, crypt, today);
    if m.Ok? {
      SortedGroupsKnown(m.value.groups, m.value.passwd);
    }
  }

  /** A group member without a passwd entry makes the source fail after
      it has written /etc/passwd and /etc/shadow, leaving /etc/group cut
      short before that group; the corrected rebuild writes nothing. */
  lemma UnknownMemberCutsGroupFile(passwdLines: seq<string>, shadowLines: seq<string>, groupLines: seq<string>,
                                   users: Dict<string, UdbUser>, crypt: string -> string, today: int)
    requires var m := Merge(passwdLines, shadowLines, groupLines, users, crypt, today);
      m.Ok? && UnknownMembers(m.value.groups, m.value.passwd) != {}
    ensures var db := Merge(passwdLines, shadowLines, groupLines, users, crypt, today).value;
      var out := GenerateAsWritten(passwdLines, shadowLines, groupLines, users, crypt, today);
      out.GroupWriteFailed? &&
      out.passwd == PasswdFile(SortedUsers(db.passwd)) &&
      |out.group| < |db.groups|
    ensures Generate(passwdLines, shadowLines, groupLines, users, crypt, today).Aborted?
  {
    var db := Merge(passwdLines, shadowLines, groupLines, users, crypt, today).value;
    SortedGroupsKnown(db.groups, db.passwd);
  }

  /** The sorted groups start with the one whose gid is below every
      other's. */
  lemma SortedGroupsFirst(groups: Dict<string, Group>, x: Group)
    requires x in Values(groups)
    requires forall i :: 0 <= i < |groups| ==> groups[i].1 == x || groups[i].1.gid > x.gid
    ensures SortedGroups(groups) != [] && SortedGroups(groups)[0] == x
  {
    var gs := SortedGroups(groups);
    var vs := Values(groups);
    assert x in multiset(gs);
    var j :| 0 <= j < |gs| && gs[j] == x;
    assert gs[0] in multiset(vs);
    var i :| 0 <= i < |vs| && vs[i] == gs[0];
    assert gs[0].gid <= x.gid;
  }

  /** The group `audio` with member `bob`, and its line. */
  function Audio(): Group { Group("audio", "x", 92, ["bob"]) }

  function AudioLine(): string { GroupLine(Audio().(members := []), ["bob"]) }

  /** A one-line /etc/group. */
  lemma GroupsOfOne(line: string)
    requires ParseGroup(line).Some?
    ensures GroupsOf([line]) == Some([(ParseGroup(line).value.name, ParseGroup(line).value)])
  {
    var g := ParseGroup(line).value;
    assert [line][..0] == [];
    assert GroupsOf([line][..0]) == Some([]);
    assert Keys<string, Group>([]) == [];
    assert Put([], g.name, g) == [(g.name, g)];
    assert GroupsOf([line]) == Some(Put([], g.name, g));
  }

  lemma AudioParsed()
    ensures ParseGroup(AudioLine()) == Some(Audio())
  {
    assert IsName("audio") && IsName("bob") && ':' !in "x";
    ParseGroupLine(Audio().(members := []), ["bob"]);
  }

  lemma AudioRead()
    ensures GroupsOf([AudioLine()]) == Some([("audio", Audio())])
  {
    AudioParsed();
    GroupsOfOne(AudioLine());
  }

  /** The groups once `user` and `orga` are created beside `audio`. */
  function AudioGroups(): Dict<string, Group>
  {
    [("audio", Audio()), ("user", Group("user", "x", UserGid, [])), ("orga", Group("orga", "x", OrgaGid, []))]
  }

  lemma AudioReset()
    ensures ResetGroups([("audio", Audio())]) == AudioGroups()
  {
    var g := [("audio", Audio())];
    assert "user"[0] != "audio"[0] && "orga"[0] != "audio"[0] && "user"[0] != "orga"[0];
    assert ProloginGroups[0] == ("user", UserGid) && ProloginGroups[1] == ("orga", OrgaGid);
    assert Keys(g) == ["audio"];
    var once := ResetGroup(g, "user", UserGid);
    assert once == g + [("user", Group("user", "x", UserGid, []))];
    assert ResetFirst(g, 1) == once;
    assert Keys(once) == ["audio", "user"];
    assert ResetGroup(once, "orga", OrgaGid) == once + [("orga", Group("orga", "x", OrgaGid, []))];
  }

  lemma AudioMerged(crypt: string -> string, today: int)
    ensures Merge([], [], [AudioLine()], [], crypt, today) == Ok(Db([], [], ResetGroups([("audio", Audio())])))
  {
    AudioRead();
    assert ReadFiles([], [], [AudioLine()]) == Ok(Db([], [], ResetGroups([("audio", Audio())])));
    var db := Db([], [], ResetGroups([("audio", Audio())]));
    assert AddUsers(db, [], crypt, today) == Some(db);
    assert KeySet<User>([]) == {} && KeySet<string>([]) == {};
  }

  /** `audio` has the lowest gid. */
  lemma AudioFirst()
    ensures SortedGroups(AudioGroups()) != [] && SortedGroups(AudioGroups())[0] == Audio()
  {
    var groups := AudioGroups();
    assert Values(groups)[0] == Audio();
    assert forall i :: 0 <= i < |groups| ==> groups[i].1 == Audio() || groups[i].1.gid > 92;
    SortedGroupsFirst(groups, Audio());
  }

  /** Writing /etc/group stops at `audio`, the first group, before any
      line. */
  lemma AudioGroupFile()
    ensures GroupFileAsWritten(SortedGroups(AudioGroups()), []) == ([], false)
  {
    AudioFirst();
    var gs := SortedGroups(AudioGroups());
    assert Keys<string, User>([]) == [] && gs[0].members[0] == "bob";
    assert !MembersKnown(gs[0], []);
    assert KnownPrefix(gs, []) == 0;
    assert gs[..0] == [];
  }

  /** `bob` has no passwd entry. */
  lemma AudioUnknown()
    ensures UnknownMembers(AudioGroups(), []) != {}
  {
    assert Keys<string, User>([]) == [] && AudioGroups()[0].1.members[0] == "bob";
    assert !MembersKnown(AudioGroups()[0].1, []);
  }

  /** An /etc/group holding only `audio:x:92:bob`, with no `bob` in
      /etc/passwd and nobody in the database: the source writes empty
      /etc/passwd and /etc/shadow files and then an empty /etc/group, as
      `audio` sorts first; the corrected rebuild writes nothing. */
  lemma AudioMemberEmptiesGroupFile(crypt: string -> string, today: int)
    ensures GenerateAsWritten([], [], [AudioLine()], [], crypt, today) == GroupWriteFailed([], [], [])
    ensures Generate([], [], [AudioLine()], [], crypt, today).Aborted?
  {
    AudioMerged(crypt, today);
    AudioReset();
    AudioGroupFile();
    AudioUnknown();
    assert |SortedUsers([])| == 0;
  }
}
