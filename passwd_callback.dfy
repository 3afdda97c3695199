/** The `callback` of python-lib/prologin/udbsync_clients/passwd.py, step by
    step: the loops that read the three files into tables, reset Prologin's
    groups, add the database users and write the files back, each proved
    against the functions of module Passwd that state what it computes.
    The file contents are parameters and results; the hash of a password
    and today's date are parameters too. */
module PasswdCallback {
  import opened Common
  import opened Dicts
  import opened Sorting
  import opened Passwd

  /** Reads /etc/passwd, keeping the users outside Prologin's uid range;
      none when a line does not parse. */
  method ReadPasswd(lines: seq<string>) returns (r: Option<Dict<string, User>>)
    ensures r == PasswdUsers(lines)
  {
    var users: Dict<string, User> := [];
    var i := 0;
    while i < |lines|
      invariant 0 <= i <= |lines|
      invariant PasswdUsers(lines[..i]) == Some(users)
    {
      var u := ParseUser(lines[i]);
      if u.None? {
        assert lines[i] in lines && ParseUser(lines[i]).None?;
        return None;
      }
      assert lines[..i + 1][..i] == lines[..i];
      if !IsProloginUid(u.value.uid) {
        users := Put(users, u.value.login, u.value);
      }
      i := i + 1;
    }
    assert lines[..i] == lines;
    r := Some(users);
  }

  /** Reads /etc/shadow into the rest of each line by login; none when a
      line does not parse. */
  method ReadShadow(lines: seq<string>) returns (r: Option<Dict<string, string>>)
    ensures r == ShadowPasswords(lines)
  {
    var shadows: Dict<string, string> := [];
    var i := 0;
    while i < |lines|
      invariant 0 <= i <= |lines|
      invariant ShadowPasswords(lines[..i]) == Some(shadows)
    {
      assert lines[..i + 1][..i] == lines[..i];
      var e := ParseShadow(lines[i]);
      if e.None? {
        return None;
      }
      shadows := Put(shadows, e.value.0, e.value.1);
      i := i + 1;
    }
    assert lines[..i] == lines;
    r := Some(shadows);
  }

  /** Reads /etc/group by group name; none when a line does not parse. */
  method ReadGroups(lines: seq<string>) returns (r: Option<Dict<string, Group>>)
    ensures r == GroupsOf(lines)
  {
    var groups: Dict<string, Group> := [];
    var i := 0;
    while i < |lines|
      invariant 0 <= i <= |lines|
      invariant GroupsOf(lines[..i]) == Some(groups)
    {
      assert lines[..i + 1][..i] == lines[..i];
      var g := ParseGroup(lines[i]);
      if g.None? {
        GroupsOfUnparsable(lines, i);
        return None;
      }
      groups := Put(groups, g.value.name, g.value);
      i := i + 1;
    }
    assert lines[..i] == lines;
    r := Some(groups);
  }

  /** Empties each of Prologin's groups, creating the missing ones. */
  method ResetProloginGroups(groups: Dict<string, Group>) returns (r: Dict<string, Group>)
    ensures r == ResetGroups(groups)
  {
    r := groups;
    var i := 0;
    while i < |ProloginGroups|
      invariant 0 <= i <= |ProloginGroups|
      invariant r == ResetFirst(groups, i)
    {
      var (name, gid) := ProloginGroups[i];
      match Lookup(r, name) {
        case None =>
          r := Put(r, name, Group(name, "x", gid, []));
        case Some(g) =>
          r := Put(r, name, g.(members := []));
      }
      i := i + 1;
    }
  }

  /** Adds a login to each of the groups a user joins. */
  method JoinGroups(groups: Dict<string, Group>, names: seq<string>, login: string) returns (r: Dict<string, Group>)
    ensures r == JoinAll(groups, names, login)
  {
    r := groups;
    var j := 0;
    while j < |names|
      invariant 0 <= j <= |names|
      invariant JoinAll(r, names[j..], login) == JoinAll(groups, names, login)
    {
      assert names[j..][1..] == names[j + 1..];
      r := AddToGroup(r, names[j], login);
      j := j + 1;
    }
  }

  /** Adds the database users in order: a passwd entry, a shadow entry and
      the memberships of each; none when one has an unknown type. */
  method AddUdbUsers(db: Db, users: Dict<string, UdbUser>, crypt: string -> string, today: int)
    returns (r: Option<Db>)
    ensures r == AddUsers(db, users, crypt, today)
  {
    var passwd, shadows, groups := db.passwd, db.shadows, db.groups;
    var i := 0;
    while i < |users|
      invariant 0 <= i <= |users|
      invariant AddUsers(db, users[..i], crypt, today) == Some(Db(passwd, shadows, groups))
    {
      assert users[..i + 1][..i] == users[..i];
      var (key, uu) := users[i];
      var names := UserGroups(uu.group);
      if names.None? {
        AddUsersUnknownType(db, users, crypt, today, i);
        return None;
      }
      passwd := Put(passwd, key, PasswdEntry(uu, names.value));
      shadows := Put(shadows, key, ShadowEntry(crypt(uu.password), today));
      groups := JoinGroups(groups, names.value, uu.login);
      i := i + 1;
    }
    assert users[..i] == users;
    r := Some(Db(passwd, shadows, groups));
  }

  /** Writes /etc/passwd, one line per user. */
  method WritePasswd(us: seq<User>) returns (lines: seq<string>)
    ensures lines == PasswdFile(us)
  {
    lines := [];
    var i := 0;
    while i < |us|
      invariant 0 <= i <= |us|
      invariant lines == PasswdFile(us[..i])
    {
      assert us[..i + 1][..i] == us[..i];
      lines := lines + [UserLine(us[i])];
      i := i + 1;
    }
    assert us[..i] == us;
  }

  /** Writes /etc/shadow, skipping the users without a shadow entry. */
  method WriteShadow(us: seq<User>, shadows: Dict<string, string>) returns (lines: seq<string>)
    ensures lines == ShadowFile(us, shadows)
  {
    lines := [];
    var i := 0;
    while i < |us|
      invariant 0 <= i <= |us|
      invariant lines == ShadowFile(us[..i], shadows)
    {
      assert us[..i + 1][..i] == us[..i];
      match Lookup(shadows, us[i].login) {
        case None =>
        case Some(rest) =>
          lines := lines + [ShadowLine(us[i].login, rest)];
      }
      i := i + 1;
    }
    assert us[..i] == us;
  }

  /** Writes /etc/group as the source does, stopping at the first group
      with a member that has no passwd entry; the flag tells whether
      every group was written. */
  method WriteGroups(gs: seq<Group>, passwd: Dict<string, User>) returns (lines: seq<string>, complete: bool)
    ensures (lines, complete) == GroupFileAsWritten(gs, passwd)
  {
    lines := [];
    var i := 0;
    while i < |gs|
      invariant 0 <= i <= |gs|
      invariant lines == GroupFile(gs[..i], passwd)
      invariant forall j :: 0 <= j < i ==> MembersKnown(gs[j], passwd)
    {
      if !MembersKnown(gs[i], passwd) {
        assert KnownPrefix(gs, passwd) == i;
        return lines, false;
      }
      assert gs[..i + 1] == gs[..i] + [gs[i]];
      lines := lines + [GroupLine(gs[i], SortedMembers(gs[i].members, passwd))];
      i := i + 1;
    }
    assert gs[..i] == gs;
    complete := true;
  }

  /** `callback`: the three files read, the tables rebuilt and checked,
      and the files written back sorted, as the source does it. */
  method Callback(passwdLines: seq<string>, shadowLines: seq<string>, groupLines: seq<string>,
                  users: Dict<string, UdbUser>, crypt: string -> string, today: int)
    returns (out: Outcome)
    ensures out == GenerateAsWritten(passwdLines, shadowLines, groupLines, users, crypt, today)
  {
    var passwd := ReadPasswd(passwdLines);
    if passwd.None? {
      return Aborted(UnparsablePasswd);
    }
    var shadows := ReadShadow(shadowLines);
    if shadows.None? {
      return Aborted(UnparsableShadow);
    }
    var groups := ReadGroups(groupLines);
    if groups.None? {
      return Aborted(UnparsableGroup);
    }
    ResetGroupsSpec(groups.value);
    var reset := ResetProloginGroups(groups.value);
    var db := AddUdbUsers(Db(passwd.value, shadows.value, reset), users, crypt, today);
    if db.None? {
      return Aborted(UnknownUserType);
    }
    var checked := CheckLogins(db.value);
    if checked.Err? {
      return Aborted(checked.error);
    }
    var us := SortedUsers(db.value.passwd);
    var passwdFile := WritePasswd(us);
    var shadowFile := WriteShadow(us, db.value.shadows);
    var groupFile, complete := WriteGroups(SortedGroups(db.value.groups), db.value.passwd);
    if complete {
      out := Written(passwdFile, shadowFile, groupFile);
    } else {
      out := GroupWriteFailed(passwdFile, shadowFile, groupFile);
    }
  }
}
