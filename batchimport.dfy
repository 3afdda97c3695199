/** The batch import of contestants into the user database, after
    python-lib/prologin/udb/management/commands/batchimport.py: one user
    per row, with uids counting up from a base, logins made of the
    first-name initials and the start of the last name, made unique with a
    numeric suffix, and passwords either read from the row or generated.
    `pwgen` is a parameter giving each row's generated password. */
module BatchImport {
  import opened Common

  // ---------------------------------------------------------------------
  // Text helpers

  predicate IsAsciiLower(c: char) { 'a' <= c <= 'z' }

  predicate AllAsciiLower(s: string) { forall i :: 0 <= i < |s| ==> IsAsciiLower(s[i]) }

  /** `make_ascii`: characters outside ASCII dropped, letters lowered. */
  function MakeAscii(s: string): (r: string)
    ensures |r| <= |s|
    ensures forall i :: 0 <= i < |r| ==> r[i] < 128 as char && !('A' <= r[i] <= 'Z')
  {
    if s == [] then []
    else (if s[0] < 128 as char then [LowerChar(s[0])] else []) + MakeAscii(s[1..])
  }

  /** `re.split('[^a-z]', s)`: the pieces between characters other than
      `a`-`z`. */
  function SplitNonLower(s: string): (r: seq<string>)
    ensures |r| >= 1
    ensures forall i :: 0 <= i < |r| ==> AllAsciiLower(r[i])
  {
    if s == [] then [[]]
    else
      var rest := SplitNonLower(s[1..]);
      if IsAsciiLower(s[0]) then [[s[0]] + rest[0]] + rest[1..] else [[]] + rest
  }

  /** The first character of a piece once stripped, if any. */
  function Initial(p: string): (r: string)
    ensures |r| <= 1
  {
    var q := Strip(p);
    if q != [] then [q[0]] else []
  }

  /** The first character of each piece that is not blank once stripped. */
  function Initials(parts: seq<string>): string
  {
    if parts == [] then [] else Initial(parts[0]) + Initials(parts[1..])
  }

  /** Reference definition: the letters `a`-`z` that start a run of them. */
  function RunStarts(s: string, afterLetter: bool): (r: string)
    ensures AllAsciiLower(r)
  {
    if s == [] then []
    else (if IsAsciiLower(s[0]) && !afterLetter then [s[0]] else []) + RunStarts(s[1..], IsAsciiLower(s[0]))
  }

  lemma InitialOfLower(p: string)
    requires AllAsciiLower(p)
    ensures Initial(p) == if p == [] then [] else [p[0]]
  {
    StripNoSpaceEnds(p);
  }

  lemma InitialsCons(h: string, t: seq<string>)
    ensures Initials([h] + t) == Initial(h) + Initials(t)
  {
    assert ([h] + t)[1..] == t;
  }

  /** The initials of the split pieces are the first letters of the runs
      of `a`-`z`: one per run, in order. */
  lemma {:induction false} InitialsAreRunStarts(s: string)
    ensures Initials(SplitNonLower(s)) == RunStarts(s, false)
    ensures Initials(SplitNonLower(s)[1..]) == RunStarts(s, true)
  {
    if s == [] {
      InitialOfLower([]);
      InitialsCons([], []);
      assert SplitNonLower(s) == [[]] + [];
    } else {
      InitialsAreRunStarts(s[1..]);
      if IsAsciiLower(s[0]) {
        RunStartsLetter(s);
      } else {
        RunStartsOther(s);
      }
    }
  }

  lemma RunStartsLetter(s: string)
    requires s != [] && IsAsciiLower(s[0])
    requires Initials(SplitNonLower(s[1..])[1..]) == RunStarts(s[1..], true)
    ensures Initials(SplitNonLower(s)) == RunStarts(s, false)
    ensures Initials(SplitNonLower(s)[1..]) == RunStarts(s, true)
  {
    var rest := SplitNonLower(s[1..]);
    var head := [s[0]] + rest[0];
    assert AllAsciiLower(head);
    InitialOfLower(head);
    InitialsCons(head, rest[1..]);
    assert SplitNonLower(s) == [head] + rest[1..];
    assert SplitNonLower(s)[1..] == rest[1..];
  }

  lemma RunStartsOther(s: string)
    requires s != [] && !IsAsciiLower(s[0])
    requires Initials(SplitNonLower(s[1..])) == RunStarts(s[1..], false)
    ensures Initials(SplitNonLower(s)) == RunStarts(s, false)
    ensures Initials(SplitNonLower(s)[1..]) == RunStarts(s, true)
  {
    var rest := SplitNonLower(s[1..]);
    InitialOfLower([]);
    InitialsCons([], rest);
    assert SplitNonLower(s) == [[]] + rest;
    assert SplitNonLower(s)[1..] == rest;
  }

  /** The letters `a`-`z` of `s`, in order. */
  function LowerOnly(s: string): (r: string)
    ensures AllAsciiLower(r) && |r| <= |s|
    ensures forall c :: c in r <==> c in s && IsAsciiLower(c)
  {
    if s == [] then []
    else (if IsAsciiLower(s[0]) then [s[0]] else []) + LowerOnly(s[1..])
  }

  /** The login of a contestant before any suffix: the initials of the
      first name, then at most ten letters of the last name. */
  function BaseLogin(firstname: string, lastname: string): string
  {
    var ln := LowerOnly(MakeAscii(lastname));
    Initials(SplitNonLower(MakeAscii(firstname))) + ln[..if |ln| < 10 then |ln| else 10]
  }

  /** A base login is only letters `a`-`z`: the first letter of each run of
      them in the first name, then the first ten (or all, if fewer) of the
      last name's. */
  lemma BaseLoginSpec(firstname: string, lastname: string)
    ensures var ln := LowerOnly(MakeAscii(lastname));
      var b := BaseLogin(firstname, lastname);
      var runs := RunStarts(MakeAscii(firstname), false);
      |runs| <= |b| && b[..|runs|] == runs && IsPrefix(b[|runs|..], ln) &&
      |b| - |runs| == if |ln| < 10 then |ln| else 10
    ensures AllAsciiLower(BaseLogin(firstname, lastname))
  {
    var ln := LowerOnly(MakeAscii(lastname));
    InitialsAreRunStarts(MakeAscii(firstname));
    var k := if |ln| < 10 then |ln| else 10;
    LowerPrefixJoin(RunStarts(MakeAscii(firstname), false), ln, k);
  }

  /** Letters followed by the first `k` letters of another string. */
  lemma LowerPrefixJoin(runs: string, ln: string, k: nat)
    requires AllAsciiLower(runs) && AllAsciiLower(ln) && k <= |ln|
    ensures var l := runs + ln[..k];
      |runs| <= |l| && l[..|runs|] == runs && IsPrefix(l[|runs|..], ln) && |l| - |runs| == k &&
      AllAsciiLower(l)
  {
    var l := runs + ln[..k];
    assert l[..|runs|] == runs && l[|runs|..] == ln[..k];
    forall i | 0 <= i < |l|
      ensures IsAsciiLower(l[i])
    {
      if i >= |runs| {
        assert l[i] == ln[i - |runs|];
      }
    }
  }

  function UpperChar(c: char): char
  {
    if 'a' <= c <= 'z' then (c as int - 32) as char else c
  }

  predicate AsciiLetter(c: char)
  {
    'a' <= c <= 'z' || 'A' <= c <= 'Z'
  }

  /** `str.title` on ASCII: a letter that starts a run of letters is
      upper-cased, every other letter lower-cased, and everything else
      kept. */
  function Title(s: string): (r: string)
    ensures |r| == |s|
    ensures forall i :: 0 <= i < |s| && !AsciiLetter(s[i]) ==> r[i] == s[i]
    ensures forall i :: 0 <= i < |s| && AsciiLetter(s[i]) && (i == 0 || !AsciiLetter(s[i - 1])) ==>
      r[i] == UpperChar(s[i])
    ensures forall i :: 0 < i < |s| && AsciiLetter(s[i]) && AsciiLetter(s[i - 1]) ==> r[i] == LowerChar(s[i])
  {
    TitleFrom(s, false)
  }

  /** The title-casing of `s` when the character before it was a letter
      (`afterLetter`) or not. */
  function TitleFrom(s: string, afterLetter: bool): (r: string)
    ensures |r| == |s|
    ensures forall i :: 0 <= i < |s| && !AsciiLetter(s[i]) ==> r[i] == s[i]
    ensures forall i :: 0 <= i < |s| && AsciiLetter(s[i]) ==>
      r[i] == if (if i == 0 then afterLetter else AsciiLetter(s[i - 1])) then LowerChar(s[i]) else UpperChar(s[i])
  {
    if s == [] then []
    else
      var c := s[0];
      var letter := AsciiLetter(c);
      var rest := TitleFrom(s[1..], letter);
      assert forall i :: 1 <= i < |s| ==> s[1..][i - 1] == s[i];
      [if !letter then c else if afterLetter then LowerChar(c) else UpperChar(c)] + rest
  }

  // ---------------------------------------------------------------------
  // Unique logins

  /** The `k`-th login tried for `base`: the base itself, then the base
      followed by 1, 2, ... */
  function Candidate(base: string, k: nat): string
  {
    if k == 0 then base else base + NatToString(k)
  }

  lemma CandidateInjective(base: string, j: nat, k: nat)
    requires Candidate(base, j) == Candidate(base, k)
    ensures j == k
  {
    if j != 0 && k != 0 {
      assert Candidate(base, j)[|base|..] == NatToString(j);
      assert Candidate(base, k)[|base|..] == NatToString(k);
      NatToStringInjective(j, k);
    }
  }

  /** `n` distinct candidates that are all taken need `n` taken logins. */
  lemma {:induction false} CandidatesBound(base: string, n: nat, taken: set<string>)
    requires forall k :: 0 <= k < n ==> Candidate(base, k) in taken
    ensures n <= |taken|
  {
    if n > 0 {
      var rest := taken - {Candidate(base, n - 1)};
      forall k | 0 <= k < n - 1
        ensures Candidate(base, k) in rest
      {
        if Candidate(base, k) == Candidate(base, n - 1) {
          CandidateInjective(base, k, n - 1);
        }
      }
      CandidatesBound(base, n - 1, rest);
    }
  }

  /** The first candidate from the `k`-th on that is not taken. */
  function Unique(base: string, taken: set<string>, k: nat): (r: string)
    requires forall j :: 0 <= j < k ==> Candidate(base, j) in taken
    ensures r !in taken
    ensures exists n :: k <= n && r == Candidate(base, n) &&
                        forall j :: 0 <= j < n ==> Candidate(base, j) in taken
    decreases |taken| + 1 - k
  {
    CandidatesBound(base, k, taken);
    if Candidate(base, k) !in taken then Candidate(base, k)
    else Unique(base, taken, k + 1)
  }

  /** The suffix loop of `create_users`: the base login, or the base with
      the smallest suffix 1, 2, ... that no earlier row took. */
  method FreshLogin(base: string, taken: set<string>) returns (login: string)
    ensures login == Unique(base, taken, 0)
  {
    login := base;
    var i := 1;
    while login in taken
      invariant i >= 1
      invariant login == Candidate(base, i - 1)
      invariant forall j :: 0 <= j < i - 1 ==> Candidate(base, j) in taken
      invariant Unique(base, taken, 0) == Unique(base, taken, i - 1)
      decreases |taken| + 1 - i
    {
      CandidatesBound(base, i, taken);
      login := base + NatToString(i);
      i := i + 1;
    }
  }

  // ---------------------------------------------------------------------
  // Creating the users

  /** A row of the import file: a login (with `--logins`) or a first and a
      last name. */
  datatype Row = Text(line: string) | Pair(first: string, last: string)

  /** The command's options: `--uidbase`, `--type`, `--logins`,
      `--passwords`. */
  datatype Mode = Mode(uidbase: int, group: string, logins: bool, passwords: bool)

  datatype NewUser = NewUser(login: string, firstname: string, lastname: string, uid: int, group: string, password: string)

  /** With `--passwords`, a row of names cannot be split (the import stops
      on the first row), and a login row must hold exactly one colon. */
  datatype ImportError = PairHasNoSplit | NotOnePasswordColon(line: string)

  /** The users created, in order, and the error that stopped the import. */
  datatype Imported = Imported(users: seq<NewUser>, err: Option<ImportError>)

  /** The file reader gives logins with `--logins` and name pairs without. */
  predicate RowsMatchMode(rows: seq<Row>, mode: Mode)
  {
    forall i :: 0 <= i < |rows| ==> (rows[i].Text? <==> mode.logins)
  }

  /** Whether `row.split(':')` unpacks into two values. */
  predicate OneColon(row: Row)
  {
    row.Text? && |Split(row.line, ':')| == 2
  }

  /** The user one row yields, given the logins taken before it: with
      `--passwords` the row is cut at its colon into the name part and the
      password; a login row gives the login, lowered to ASCII, as first and
      last name too; a row of names gives a login no earlier row took. */
  function RowUser(row: Row, mode: Mode, taken: set<string>, uid: int, generated: string): (r: Result<NewUser, ImportError>)
    requires row.Text? <==> mode.logins
    ensures r.Err? <==> mode.passwords && !OneColon(row)
    ensures r.Err? ==> r.error == if row.Pair? then PairHasNoSplit else NotOnePasswordColon(row.line)
    ensures r.Ok? ==> r.value.uid == uid && r.value.group == mode.group
    ensures r.Ok? ==> r.value.password == if mode.passwords then Split(row.line, ':')[1] else generated
    ensures r.Ok? && mode.logins ==>
      r.value.login == MakeAscii(if mode.passwords then Split(row.line, ':')[0] else row.line)
    ensures r.Ok? && !mode.logins ==>
      r.value.login !in taken && r.value.firstname == Title(row.first) && r.value.lastname == Title(row.last)
    ensures r.Ok? && !mode.logins ==> r.value.login == Unique(BaseLogin(row.first, row.last), taken, 0)
  {
    if mode.passwords && row.Pair? then Err(PairHasNoSplit)
    else if mode.passwords && |Split(row.line, ':')| != 2 then Err(NotOnePasswordColon(row.line))
    else
      var t := if mode.passwords then Text(Split(row.line, ':')[0]) else row;
      var password := if mode.passwords then Split(row.line, ':')[1] else generated;
      if mode.logins then
        var login := MakeAscii(t.line);
        Ok(NewUser(login, Title(login), Title(login), uid, mode.group, password))
      else
        Ok(NewUser(Unique(BaseLogin(t.first, t.last), taken, 0), Title(t.first), Title(t.last), uid, mode.group, password))
  }

  /** The rows from the `k`-th on, after the logins in `taken` were used
      and with `uid` the next uid: at most one user per row, and one for
      every row unless an error stops the import. */
  function ImportFrom(rows: seq<Row>, mode: Mode, pwgen: nat -> string, k: nat, taken: set<string>, uid: int): (r: Imported)
    requires RowsMatchMode(rows, mode) && k <= |rows|
    ensures |r.users| <= |rows| - k
    ensures r.err.None? <==> |r.users| == |rows| - k
    decreases |rows| - k
  {
    if k == |rows| then Imported([], None)
    else
      match RowUser(rows[k], mode, taken, uid, pwgen(k))
      case Err(e) => Imported([], Some(e))
      case Ok(u) =>
        var rest := ImportFrom(rows, mode, pwgen, k + 1, taken + {u.login}, uid + 1);
        Imported([u] + rest.users, rest.err)
  }

  /** One step of the import: a row that yields a user puts it before
      the users of the rows after it. */
  lemma ImportFromStep(rows: seq<Row>, mode: Mode, pwgen: nat -> string, k: nat, taken: set<string>, uid: int)
    requires RowsMatchMode(rows, mode) && k < |rows|
    ensures var row := RowUser(rows[k], mode, taken, uid, pwgen(k));
      row.Err? ==> ImportFrom(rows, mode, pwgen, k, taken, uid) == Imported([], Some(row.error))
    ensures var row := RowUser(rows[k], mode, taken, uid, pwgen(k));
      row.Ok? ==>
        var rest := ImportFrom(rows, mode, pwgen, k + 1, taken + {row.value.login}, uid + 1);
        ImportFrom(rows, mode, pwgen, k, taken, uid) == Imported([row.value] + rest.users, rest.err)
  {
  }

  /** The body of `create_users`' loop for one row. */
  method MakeUser(row: Row, mode: Mode, logins: set<string>, uid: int, generated: string) returns (r: Result<NewUser, ImportError>)
    requires row.Text? <==> mode.logins
    ensures r == RowUser(row, mode, logins, uid, generated)
  {
    var t := row;
    var passw: Option<string> := None;
    if mode.passwords {
      if row.Pair? {
        return Err(PairHasNoSplit);
      }
      var parts := Split(row.line, ':');
      if |parts| != 2 {
        return Err(NotOnePasswordColon(row.line));
      }
      t := Text(parts[0]);
      passw := Some(parts[1]);
    }
    var login, firstname, lastname;
    if mode.logins {
      login := MakeAscii(t.line);
      firstname := login;
      lastname := login;
    } else {
      firstname, lastname := t.first, t.last;
      login := FreshLogin(BaseLogin(firstname, lastname), logins);
    }
    var password := if passw.Some? then passw.value else generated;
    r := Ok(NewUser(login, Title(firstname), Title(lastname), uid, mode.group, password));
  }

  /** The import of the `i`-th row, once the rows before it made
      `users`: the row's user joins them, or the import ends with what
      they are. */
  method ImportRow(rows: seq<Row>, mode: Mode, pwgen: nat -> string, i: nat, logins: set<string>, uid: int, ghost users: seq<NewUser>)
    returns (r: Result<NewUser, ImportError>)
    requires RowsMatchMode(rows, mode) && i < |rows|
    ensures var cur := ImportFrom(rows, mode, pwgen, i, logins, uid);
      r.Err? ==> Imported(users + cur.users, cur.err) == Imported(users, Some(r.error))
    ensures r.Ok? ==>
      var cur := ImportFrom(rows, mode, pwgen, i, logins, uid);
      var next := ImportFrom(rows, mode, pwgen, i + 1, logins + {r.value.login}, uid + 1);
      Imported(users + cur.users, cur.err) == Imported((users + [r.value]) + next.users, next.err)
  {
    r := MakeUser(rows[i], mode, logins, uid, pwgen(i));
    ImportFromStep(rows, mode, pwgen, i, logins, uid);
    if r.Err? {
      assert users + [] == users;
    } else {
      AppendAssoc(users, r.value, ImportFrom(rows, mode, pwgen, i + 1, logins + {r.value.login}, uid + 1).users);
    }
  }

  /** `create_users`: one user per row, saved in order, until a row cannot
      be split. */
  method CreateUsers(rows: seq<Row>, mode: Mode, pwgen: nat -> string) returns (users: seq<NewUser>, err: Option<ImportError>)
    requires RowsMatchMode(rows, mode)
    ensures Imported(users, err) == ImportFrom(rows, mode, pwgen, 0, {}, mode.uidbase)
  {
    var uid := mode.uidbase;
    var logins: set<string> := {};
    users := [];
    var i := 0;
    StartImport(rows, mode, pwgen);
    while i < |rows|
      invariant i <= |rows|
      invariant ImportFrom(rows, mode, pwgen, 0, {}, mode.uidbase) ==
        Imported(users + ImportFrom(rows, mode, pwgen, i, logins, uid).users, ImportFrom(rows, mode, pwgen, i, logins, uid).err)
    {
      var r := ImportRow(rows, mode, pwgen, i, logins, uid, users);
      if r.Err? {
        return users, Some(r.error);
      }
      var u := r.value;
      logins := logins + {u.login};
      users := users + [u];
      uid := uid + 1;
      i := i + 1;
    }
    assert users + [] == users;
    err := None;
  }

  lemma StartImport(rows: seq<Row>, mode: Mode, pwgen: nat -> string)
    requires RowsMatchMode(rows, mode)
    ensures var x := ImportFrom(rows, mode, pwgen, 0, {}, mode.uidbase); x == Imported([] + x.users, x.err)
  {
    var x := ImportFrom(rows, mode, pwgen, 0, {}, mode.uidbase);
    assert [] + x.users == x.users;
  }

  lemma AppendAssoc(users: seq<NewUser>, u: NewUser, rest: seq<NewUser>)
    ensures users + ([u] + rest) == (users + [u]) + rest
  {
  }

  // ---------------------------------------------------------------------
  // Properties of the import

  lemma {:induction false} ImportFromUids(rows: seq<Row>, mode: Mode, pwgen: nat -> string, k: nat, taken: set<string>, uid: int)
    requires RowsMatchMode(rows, mode) && k <= |rows|
    decreases |rows| - k
    ensures var r := ImportFrom(rows, mode, pwgen, k, taken, uid);
      forall j :: 0 <= j < |r.users| ==> r.users[j].uid == uid + j && r.users[j].group == mode.group
  {
    if k < |rows| {
      var row := RowUser(rows[k], mode, taken, uid, pwgen(k));
      ImportFromStep(rows, mode, pwgen, k, taken, uid);
      if row.Ok? {
        var t2 := taken + {row.value.login};
        ImportFromUids(rows, mode, pwgen, k + 1, t2, uid + 1);
        UidsCons(row.value, ImportFrom(rows, mode, pwgen, k + 1, t2, uid + 1).users, uid, mode.group);
      }
    }
  }

  lemma UidsCons(u: NewUser, rest: seq<NewUser>, uid: int, group: string)
    requires u.uid == uid && u.group == group
    requires forall j :: 0 <= j < |rest| ==> rest[j].uid == uid + 1 + j && rest[j].group == group
    ensures forall j :: 0 <= j < |[u] + rest| ==> ([u] + rest)[j].uid == uid + j && ([u] + rest)[j].group == group
  {
  }

  /** The `j`-th user created gets the base uid plus `j` and the group of
      `--type`, and the import creates a user for every row unless it stops
      on an error. */
  lemma ImportUids(rows: seq<Row>, mode: Mode, pwgen: nat -> string)
    requires RowsMatchMode(rows, mode)
    ensures var r := ImportFrom(rows, mode, pwgen, 0, {}, mode.uidbase);
      (r.err.None? <==> |r.users| == |rows|) &&
      forall j :: 0 <= j < |r.users| ==> r.users[j].uid == mode.uidbase + j && r.users[j].group == mode.group
  {
    ImportFromUids(rows, mode, pwgen, 0, {}, mode.uidbase);
  }

  lemma {:induction false} ImportFromDistinct(rows: seq<Row>, mode: Mode, pwgen: nat -> string, k: nat, taken: set<string>, uid: int)
    requires RowsMatchMode(rows, mode) && k <= |rows| && !mode.logins
    decreases |rows| - k
    ensures var r := ImportFrom(rows, mode, pwgen, k, taken, uid);
      (forall j :: 0 <= j < |r.users| ==> r.users[j].login !in taken) &&
      forall i, j :: 0 <= i < j < |r.users| ==> r.users[i].login != r.users[j].login
  {
    if k < |rows| {
      var row := RowUser(rows[k], mode, taken, uid, pwgen(k));
      ImportFromStep(rows, mode, pwgen, k, taken, uid);
      if row.Ok? {
        var t2 := taken + {row.value.login};
        ImportFromDistinct(rows, mode, pwgen, k + 1, t2, uid + 1);
        DistinctCons(row.value, ImportFrom(rows, mode, pwgen, k + 1, t2, uid + 1).users, taken);
      }
    }
  }

  lemma DistinctCons(u: NewUser, rest: seq<NewUser>, taken: set<string>)
    requires u.login !in taken
    requires forall j :: 0 <= j < |rest| ==> rest[j].login !in taken + {u.login}
    requires forall i, j :: 0 <= i < j < |rest| ==> rest[i].login != rest[j].login
    ensures forall j :: 0 <= j < |[u] + rest| ==> ([u] + rest)[j].login !in taken
    ensures forall i, j :: 0 <= i < j < |[u] + rest| ==> ([u] + rest)[i].login != ([u] + rest)[j].login
  {
    var users := [u] + rest;
    forall i, j | 0 <= i < j < |users|
      ensures users[i].login != users[j].login
    {
      assert users[j] == rest[j - 1];
      if i > 0 {
        assert users[i] == rest[i - 1];
      }
    }
  }

  /** From names, every user gets a login of its own that no earlier row
      took. */
  lemma ImportLoginsDistinct(rows: seq<Row>, mode: Mode, pwgen: nat -> string)
    requires RowsMatchMode(rows, mode) && !mode.logins
    ensures var r := ImportFrom(rows, mode, pwgen, 0, {}, mode.uidbase);
      forall i, j :: 0 <= i < j < |r.users| ==> r.users[i].login != r.users[j].login
  {
    ImportFromDistinct(rows, mode, pwgen, 0, {}, mode.uidbase);
  }

  /** Users made from names, in order, from the `k`-th row on with the
      logins in `taken` already used: each one's login is the first free
      candidate of its own row's base login, and it is taken for the
      rows after it. */
  predicate NameLogins(rows: seq<Row>, k: nat, taken: set<string>, users: seq<NewUser>)
    decreases |users|
  {
    users == [] ||
    (k < |rows| && rows[k].Pair? &&
     users[0].login == Unique(BaseLogin(rows[k].first, rows[k].last), taken, 0) &&
     NameLogins(rows, k + 1, taken + {users[0].login}, users[1..]))
  }

  lemma {:induction false} ImportFromNameLogins(rows: seq<Row>, mode: Mode, pwgen: nat -> string, k: nat, taken: set<string>,
                                                uid: int)
    requires RowsMatchMode(rows, mode) && k <= |rows| && !mode.logins
    decreases |rows| - k
    ensures NameLogins(rows, k, taken, ImportFrom(rows, mode, pwgen, k, taken, uid).users)
  {
    if k < |rows| {
      ImportFromStep(rows, mode, pwgen, k, taken, uid);
      var row := RowUser(rows[k], mode, taken, uid, pwgen(k));
      if row.Ok? {
        var u := row.value;
        var rest := ImportFrom(rows, mode, pwgen, k + 1, taken + {u.login}, uid + 1).users;
        ImportFromNameLogins(rows, mode, pwgen, k + 1, taken + {u.login}, uid + 1);
        assert ([u] + rest)[1..] == rest;
      }
    }
  }

  /** From names, the users' logins are, in order, the first free
      candidates of their own rows' base logins, each one taken for the
      rows after it. */
  lemma ImportNameLogins(rows: seq<Row>, mode: Mode, pwgen: nat -> string)
    requires RowsMatchMode(rows, mode) && !mode.logins
    ensures NameLogins(rows, 0, {}, ImportFrom(rows, mode, pwgen, 0, {}, mode.uidbase).users)
  {
    ImportFromNameLogins(rows, mode, pwgen, 0, {}, mode.uidbase);
  }

  /** The row, cut at its one colon, gives the user's login and password. */
  predicate PasswordRow(u: NewUser, row: Row)
  {
    OneColon(row) && u.login == MakeAscii(Split(row.line, ':')[0]) && u.password == Split(row.line, ':')[1]
  }

  lemma {:induction false} ImportFromPasswords(rows: seq<Row>, mode: Mode, pwgen: nat -> string, k: nat, taken: set<string>,
                                               uid: int, i: nat)
    requires RowsMatchMode(rows, mode) && k <= |rows| && mode.logins && mode.passwords
    requires k <= i < k + |ImportFrom(rows, mode, pwgen, k, taken, uid).users|
    decreases i - k
    ensures PasswordRow(ImportFrom(rows, mode, pwgen, k, taken, uid).users[i - k], rows[i])
  {
    PasswordHead(rows, mode, pwgen, k, taken, uid);
    if i > k {
      var u := RowUser(rows[k], mode, taken, uid, pwgen(k)).value;
      ImportFromPasswords(rows, mode, pwgen, k + 1, taken + {u.login}, uid + 1, i);
      ConsAt(ImportFrom(rows, mode, pwgen, k, taken, uid).users, u,
             ImportFrom(rows, mode, pwgen, k + 1, taken + {u.login}, uid + 1).users, i - k);
    }
  }

  /** A non-empty import starts with the user of its first row, which is
      cut from that row. */
  lemma PasswordHead(rows: seq<Row>, mode: Mode, pwgen: nat -> string, k: nat, taken: set<string>, uid: int)
    requires RowsMatchMode(rows, mode) && k <= |rows| && mode.logins && mode.passwords
    requires ImportFrom(rows, mode, pwgen, k, taken, uid).users != []
    ensures k < |rows|
    ensures var row := RowUser(rows[k], mode, taken, uid, pwgen(k));
      row.Ok? && PasswordRow(row.value, rows[k]) &&
      ImportFrom(rows, mode, pwgen, k, taken, uid).users ==
        [row.value] + ImportFrom(rows, mode, pwgen, k + 1, taken + {row.value.login}, uid + 1).users
  {
    ImportFromStep(rows, mode, pwgen, k, taken, uid);
    RowPassword(rows[k], mode, taken, uid, pwgen(k));
  }

  lemma ConsAt<T>(s: seq<T>, x: T, r: seq<T>, j: nat)
    requires s == [x] + r && 0 < j < |s|
    ensures s[j] == r[j - 1]
  {
  }

  lemma RowPassword(row: Row, mode: Mode, taken: set<string>, uid: int, generated: string)
    requires mode.logins && mode.passwords && row.Text?
    ensures RowUser(row, mode, taken, uid, generated).Ok? ==>
      PasswordRow(RowUser(row, mode, taken, uid, generated).value, row)
  {
  }

  /** With `--passwords` and `--logins`, each row is cut at its one colon
      into the login and the password; with `--passwords` on names, the
      import stops on the first row without creating anyone. */
  lemma ImportPasswords(rows: seq<Row>, mode: Mode, pwgen: nat -> string)
    requires RowsMatchMode(rows, mode) && mode.passwords
    ensures var r := ImportFrom(rows, mode, pwgen, 0, {}, mode.uidbase);
      (mode.logins ==> forall j :: 0 <= j < |r.users| ==> PasswordRow(r.users[j], rows[j])) &&
      (!mode.logins && rows != [] ==> r == Imported([], Some(PairHasNoSplit)))
  {
    if mode.logins {
      var r := ImportFrom(rows, mode, pwgen, 0, {}, mode.uidbase);
      forall j | 0 <= j < |r.users|
        ensures PasswordRow(r.users[j], rows[j])
      {
        ImportFromPasswords(rows, mode, pwgen, 0, {}, mode.uidbase, j);
        assert j - 0 == j;
      }
    } else if rows != [] {
      ImportFromStep(rows, mode, pwgen, 0, {}, mode.uidbase);
      assert rows[0].Pair?;
      assert RowUser(rows[0], mode, {}, mode.uidbase, pwgen(0)) == Err(PairHasNoSplit);
    }
  }
}
