/** The users of the user database, after prologin/udb/models.py: a login
    that names a system-managed account of the host is refused, and a user
    saved without a uid gets the next one of its group's pool. The host's
    account table (`pwd.getpwnam`) is a parameter; pools and users are
    objects whose fields the allocation updates. */
module UdbModels {
  import opened Common

  /** Whether a uid lies in a range reserved for the system: below 1000,
      or from 60000 to 65533. */
  predicate SystemUid(uid: int)
  {
    0 <= uid < 1000 || 60000 <= uid <= 65533
  }

  /** `validate_unix_uid`: the message of the refusal, if any. `account`
      is the uid of the host account with that login, none when there is
      no such account. */
  function ValidateUnixUid(login: string, account: Option<int>): (r: Option<string>)
    ensures r.Some? <==> account.Some? && SystemUid(account.value)
    ensures r.Some? ==> r.value == "Username " + login + " is associated with uid " + IntToString(account.value)
                                   + ", which is likely a system-managed user."
  {
    match account
    case None => None
    case Some(uid) =>
      if SystemUid(uid) then
        Some("Username " + login + " is associated with uid " + IntToString(uid) + ", which is likely a system-managed user.")
      else None
  }

  class UIDPool {
    const group: string
    const base: int
    /** The count of uids handed out. */
    var last: int

    constructor (group: string, base: int, last: int)
      ensures this.group == group && this.base == base && this.last == last
    {
      this.group := group;
      this.base := base;
      this.last := last;
    }
  }

  class User {
    var login: string
    var group: string
    /** Unset (`None` or 0, both false in Python) until allocated. */
    var uid: Option<int>

    constructor (login: string, group: string, uid: Option<int>)
      ensures this.login == login && this.group == group && this.uid == uid
    {
      this.login := login;
      this.group := group;
      this.uid := uid;
    }
  }

  /** `not self.uid`. */
  predicate Unset(uid: Option<int>)
  {
    uid.None? || uid.value == 0
  }

  datatype SaveError = Invalid(message: string) | NoPool(group: string)

  /** The first pool of a group; groups are unique among pools. */
  function PoolOf(pools: seq<UIDPool>, group: string): (r: Option<nat>)
    ensures r.Some? ==> r.value < |pools| && pools[r.value].group == group
    ensures r.None? ==> forall j :: 0 <= j < |pools| ==> pools[j].group != group
  {
    if pools == [] then None
    else if pools[0].group == group then Some(0)
    else match PoolOf(pools[1..], group)
      case None => None
      case Some(k) => Some(k + 1)
  }

  /** `allocate_uid`: the pool of the user's group counts one more uid and
      the user gets the pool's base plus the new count; without a pool
      nothing changes. */
  method AllocateUid(u: User, pools: seq<UIDPool>) returns (err: Option<SaveError>)
    modifies u, set p | p in pools
    ensures u.login == old(u.login) && u.group == old(u.group)
    ensures PoolOf(pools, u.group).None? ==>
      err == Some(NoPool(u.group)) && u.uid == old(u.uid) && forall p :: p in pools ==> p.last == old(p.last)
    ensures PoolOf(pools, u.group).Some? ==>
      var pool := pools[PoolOf(pools, u.group).value];
      err.None? && pool.last == old(pool.last) + 1 && u.uid == Some(pool.base + pool.last) &&
      forall p :: p in pools && p != pool ==> p.last == old(p.last)
  {
    var k := PoolOf(pools, u.group);
    if k.None? {
      return Some(NoPool(u.group));
    }
    var pool := pools[k.value];
    pool.last := pool.last + 1;
    u.uid := Some(pool.base + pool.last);
    err := None;
  }

  /** `User.save`: the login is validated first, and a refused login
      changes nothing; a uid is allocated only when none is set. */
  method Save(u: User, pools: seq<UIDPool>, accounts: string -> Option<int>) returns (err: Option<SaveError>)
    modifies u, set p | p in pools
    ensures u.login == old(u.login) && u.group == old(u.group)
    ensures ValidateUnixUid(u.login, accounts(u.login)).Some? ==>
      err == Some(Invalid(ValidateUnixUid(u.login, accounts(u.login)).value)) &&
      u.uid == old(u.uid) && forall p :: p in pools ==> p.last == old(p.last)
    ensures ValidateUnixUid(u.login, accounts(u.login)).None? && !Unset(old(u.uid)) ==>
      err.None? && u.uid == old(u.uid) && forall p :: p in pools ==> p.last == old(p.last)
    ensures ValidateUnixUid(u.login, accounts(u.login)).None? && Unset(old(u.uid)) && PoolOf(pools, u.group).None? ==>
      err == Some(NoPool(u.group)) && u.uid == old(u.uid) && forall p :: p in pools ==> p.last == old(p.last)
    ensures ValidateUnixUid(u.login, accounts(u.login)).None? && Unset(old(u.uid)) && PoolOf(pools, u.group).Some? ==>
      var pool := pools[PoolOf(pools, u.group).value];
      err.None? && pool.last == old(pool.last) + 1 && u.uid == Some(pool.base + pool.last)
      && forall p :: p in pools && p != pool ==> p.last == old(p.last)
  {
    var invalid := ValidateUnixUid(u.login, accounts(u.login));
    if invalid.Some? {
      return Some(Invalid(invalid.value));
    }
    err := None;
    if u.uid.None? || u.uid.value == 0 {
      err := AllocateUid(u, pools);
    }
  }

  /** Saving a user named `root` on a host where root has uid 0 is refused
      with a message naming that uid. */
  method RootRefused() returns (err: Option<SaveError>)
    ensures err == Some(Invalid("Username " + "root" + " is associated with uid " + "0" + ", which is likely a system-managed user."))
  {
    var pool := new UIDPool("root", 12000, 0);
    var u := new User("root", "root", None);
    var accounts := (login: string) => if login == "root" then Some(0) else None;
    assert accounts("root") == Some(0);
    assert IntToString(0) == "0";
    err := Save(u, [pool], accounts);
  }

  /** The first root user saved from a fresh pool based at 12000 gets uid
      12001, and the next one 12002. */
  method FirstRootUids() returns (first: Option<int>, second: Option<int>)
    ensures first == Some(12001) && second == Some(12002)
  {
    var pool := new UIDPool("root", 12000, 0);
    var admin := new User("admin", "root", None);
    var accounts := (login: string) => None;
    var err := Save(admin, [pool], accounts);
    first := admin.uid;
    var other := new User("other", "root", None);
    err := Save(other, [pool], accounts);
    second := other.uid;
  }
}
