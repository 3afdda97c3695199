/** The PresenceSync backlog of python-lib/prologin/presencesync/server.py:
    which login is logged on which machine, until when, and the admission
    rules for a new login. The clock, in whole seconds, is the `now`
    parameter; the answers of the machine and user databases are parameters
    too. Each batch of updates the queue publishes is appended to `posted`. */
module PresenceSync {
  import opened Common

  datatype UpdateKind = Update | Delete

  /** `item_to_update(type, login, hostname)`. */
  datatype Item = Item(kind: UpdateKind, login: string, hostname: Option<string>)

  /** Why `is_login_allowed` or `request_login` refuse a login. */
  datatype Refusal =
    | TooEarly
    | AlreadyLoggedElsewhere
    | Busy
    | MachineNotRegistered
    | UserNotRegistered
    | UserNotAllowed

  /** What the machine database says about a host, and the user database
      about a login. */
  datatype MachineRecord = MachineRecord(mtype: string)
  datatype UserRecord = UserRecord(group: string)

  type Backlog = map<string, (int, string)>

  /** The logins whose expiration time has come. */
  function Expired(b: Backlog, now: int): (e: set<string>)
    ensures e <= b.Keys
    ensures forall l :: l in b ==> (l in e <==> b[l].0 <= now)
  {
    set l | l in b && b[l].0 <= now
  }

  /** The hostnames the given logins are recorded on. */
  function HostsOf(b: Backlog, logins: set<string>): set<string>
  {
    set l | l in logins && l in b :: b[l].1
  }

  /** The reverse backlog maps each hostname to the login on it, and back:
      the two maps are inverse bijections. */
  ghost predicate Inverse(b: Backlog, r: map<string, string>)
  {
    (forall l :: l in b ==> b[l].1 in r && r[b[l].1] == l)
    && (forall h :: h in r ==> r[h] in b && b[r[h]].1 == h)
  }

  /** A sequence of one `delete` item per login of `logins`, in some order:
      as many items as logins, each for a login of the set, no two alike. */
  ghost predicate DeletesOf(msgs: seq<Item>, logins: set<string>)
  {
    |msgs| == |logins|
    && (forall i :: 0 <= i < |msgs| ==>
          msgs[i].kind == Delete && msgs[i].hostname == None && msgs[i].login in logins)
    && (forall i, j :: 0 <= i < j < |msgs| ==> msgs[i].login != msgs[j].login)
  }

  /** One more delete, for a login not yet deleted. */
  lemma DeletesStep(msgs: seq<Item>, done: set<string>, l: string)
    requires DeletesOf(msgs, done) && l !in done
    ensures DeletesOf(msgs + [Item(Delete, l, None)], done + {l})
  {
    var next := msgs + [Item(Delete, l, None)];
    assert |done + {l}| == |done| + 1;
    forall i, j | 0 <= i < j < |next|
      ensures next[i].login != next[j].login
    {
      if j == |msgs| {
        assert next[i] == msgs[i];
      }
    }
  }

  /** Expiry keeps the two maps inverse, and leaves only unexpired logins. */
  lemma ExpiryKeepsInverse(b: Backlog, r: map<string, string>, now: int)
    requires Inverse(b, r)
    ensures Inverse(b - Expired(b, now), r - HostsOf(b, Expired(b, now)))
  {
    var e := Expired(b, now);
    var b1 := b - e;
    var r1 := r - HostsOf(b, e);
    forall l | l in b1
      ensures b1[l].1 in r1 && r1[b1[l].1] == l
    {
      forall l' | l' in e && l' in b
        ensures b[l'].1 != b[l].1
      {
        assert r[b[l'].1] == l';
      }
    }
    forall h | h in r1
      ensures r1[h] in b1 && b1[r1[h]].1 == h
    {
      assert r[h] in e ==> h in HostsOf(b, e);
    }
  }

  /** The backlog once expired logins are gone. */
  function Remaining(b: Backlog, now: int): (b1: Backlog)
    ensures b1.Keys == b.Keys - Expired(b, now)
    ensures forall l :: l in b1 ==> b1[l] == b[l] && b[l].0 > now
  {
    b - Expired(b, now)
  }

  /** The reverse backlog once the hostnames of expired logins are gone. */
  function ReverseRemaining(b: Backlog, r: map<string, string>, now: int): map<string, string>
  {
    r - HostsOf(b, Expired(b, now))
  }

  /** Expiring twice at the same time changes nothing the second time. */
  lemma ExpiryIdempotent(b: Backlog, r: map<string, string>, now: int)
    ensures Expired(Remaining(b, now), now) == {}
    ensures Remaining(Remaining(b, now), now) == Remaining(b, now)
    ensures ReverseRemaining(Remaining(b, now), r, now) == r
  {
    var b1 := Remaining(b, now);
    assert Expired(b1, now) == {};
    assert HostsOf(b1, {}) == {};
    assert b1 - {} == b1;
    assert r - {} == r;
  }

  /** The login the reverse backlog holds for `hostname`; None for the
      defaultdict's default. */
  function Holder(r: map<string, string>, hostname: string): (o: Option<string>)
    ensures o.Some? <==> hostname in r
  {
    if hostname in r then Some(r[hostname]) else None
  }

  /** The logins update_backlog reports as logged off: those that expired,
      plus a non-empty previous holder of the hostname other than `login`. */
  function LoggedOff(expired: set<string>, holder: Option<string>, login: string): (s: set<string>)
    ensures expired <= s
    ensures holder.Some? && holder.value != "" && holder.value != login ==> holder.value in s
    ensures s <= expired + (if holder.Some? then {holder.value} else {})
  {
    if holder.Some? && holder.value != "" && holder.value != login then expired + {holder.value} else expired
  }

  /** The `update` item update_backlog publishes: one exactly when the
      hostname's holder changes. */
  function UpdateItems(holder: Option<string>, login: string, hostname: string): (u: seq<Item>)
    ensures |u| <= 1
    ensures u == [] <==> holder == Some(login)
  {
    if holder != Some(login) then [Item(Update, login, Some(hostname))] else []
  }

  /** A batch of deletes for `loggedOff`, followed by the updates. */
  ghost predicate Batch(msgs: seq<Item>, loggedOff: set<string>, updates: seq<Item>)
  {
    |msgs| == |loggedOff| + |updates|
    && DeletesOf(msgs[..|loggedOff|], loggedOff)
    && msgs[|loggedOff|..] == updates
  }

  /** A batch is posted unless it is empty. */
  ghost predicate Posted(before: seq<seq<Item>>, after: seq<seq<Item>>, loggedOff: set<string>, updates: seq<Item>)
  {
    if loggedOff == {} && updates == [] then after == before
    else |after| == |before| + 1 && after[..|before|] == before
         && Batch(after[|before|], loggedOff, updates)
  }

  /** A login that already holds its hostname and has not expired causes no
      message when it is registered again. */
  lemma QuietReLogin(b: Backlog, r: map<string, string>, now: int, login: string, hostname: string)
    requires Inverse(b, r) && Expired(b, now) == {}
    requires login in b && b[login].1 == hostname
    ensures LoggedOff(Expired(b, now), Holder(r - HostsOf(b, {}), hostname), login) == {}
    ensures UpdateItems(Holder(r - HostsOf(b, {}), hostname), login, hostname) == []
  {
    assert HostsOf(b, {}) == {};
    assert r - {} == r;
  }

  /** The backlog of logged-in users and the publishing queue. */
  class PresenceQueue {
    /** Seconds a login stays valid without being refreshed. */
    const timeout: int
    var startTs: Option<int>
    /** login -> (expiration timestamp, hostname) */
    var backlog: Backlog
    /** hostname -> login */
    var reverse: map<string, string>
    /** Every batch of items published so far, oldest first. */
    var posted: seq<seq<Item>>

    constructor (timeout: int)
      ensures this.timeout == timeout && startTs == None
      ensures backlog == map[] && reverse == map[] && posted == []
    {
      this.timeout := timeout;
      startTs := None;
      backlog := map[];
      reverse := map[];
      posted := [];
    }

    /** `remove_expired`: removes and returns exactly the logins whose
        expiration time is not after `now`, together with their hostnames. */
    method RemoveExpired(now: int) returns (removed: set<string>)
      modifies this`backlog, this`reverse
      ensures removed == Expired(old(backlog), now)
      ensures backlog == old(backlog) - removed
      ensures reverse == old(reverse) - HostsOf(old(backlog), removed)
    {
      removed := CollectExpired(backlog, now);
      backlog, reverse := RemoveLogins(backlog, reverse, removed);
    }

    /** The first loop of `remove_expired`: the logins whose expiration
        time is not after `now`. */
    static method CollectExpired(b: Backlog, now: int) returns (removed: set<string>)
      ensures removed == Expired(b, now)
    {
      removed := {};
      var pending := b.Keys;
      while pending != {}
        invariant pending <= b.Keys
        invariant removed == set l | l in b.Keys - pending && b[l].0 <= now
      {
        var l :| l in pending;
        if b[l].0 <= now {
          removed := removed + {l};
        }
        pending := pending - {l};
      }
    }

    /** The second loop of `remove_expired`: each login leaves the backlog
        and its hostname leaves the reverse backlog. */
    static method RemoveLogins(b: Backlog, r: map<string, string>, logins: set<string>)
      returns (b': Backlog, r': map<string, string>)
      requires logins <= b.Keys
      ensures b' == b - logins
      ensures r' == r - HostsOf(b, logins)
    {
      b', r' := b, r;
      var rest := logins;
      while rest != {}
        invariant rest <= logins
        invariant b' == b - (logins - rest)
        invariant r' == r - HostsOf(b, logins - rest)
      {
        var l :| l in rest;
        var hostname := b'[l].1;
        assert HostsOf(b, logins - (rest - {l})) == HostsOf(b, logins - rest) + {hostname};
        b' := b' - {l};
        r' := r' - {hostname};
        rest := rest - {l};
      }
    }

    /** One delete item per login, in the order the set is walked. */
    static method DeleteItems(logins: set<string>) returns (msgs: seq<Item>)
      ensures DeletesOf(msgs, logins)
    {
      msgs := [];
      var rest := logins;
      while rest != {}
        invariant rest <= logins
        invariant DeletesOf(msgs, logins - rest)
      {
        var l :| l in rest;
        DeletesStep(msgs, logins - rest, l);
        assert logins - (rest - {l}) == (logins - rest) + {l};
        msgs := msgs + [Item(Delete, l, None)];
        rest := rest - {l};
      }
    }

    /** `remove_and_publish_expired`: expire, then publish one delete per
        expired login if there is any. */
    method RemoveAndPublishExpired(now: int)
      modifies this`backlog, this`reverse, this`posted
      ensures backlog == Remaining(old(backlog), now)
      ensures reverse == ReverseRemaining(old(backlog), old(reverse), now)
      ensures Posted(old(posted), posted, Expired(old(backlog), now), [])
    {
      var removed := RemoveExpired(now);
      var msgs := DeleteItems(removed);
      if msgs != [] {
        posted := posted + [msgs];
        assert msgs[..|removed|] == msgs;
      } else {
        assert |removed| == 0;
      }
    }

    /** `update_backlog`: register `login` on `hostname` after expiring old
        entries; publish deletes for the logins that expired or were
        displaced, then the update if the hostname changed hands. */
    method UpdateBacklog(login: string, hostname: string, now: int)
      modifies this`backlog, this`reverse, this`posted
      ensures backlog == Remaining(old(backlog), now)[login := (now + timeout, hostname)]
      ensures reverse == ReverseRemaining(old(backlog), old(reverse), now)[hostname := login]
      ensures Posted(old(posted), posted,
                     LoggedOff(Expired(old(backlog), now),
                               Holder(ReverseRemaining(old(backlog), old(reverse), now), hostname), login),
                     UpdateItems(Holder(ReverseRemaining(old(backlog), old(reverse), now), hostname), login, hostname))
    {
      var removed := RemoveExpired(now);
      var newExpiration := now + timeout;
      var oldLogin := Holder(reverse, hostname);
      backlog := backlog[login := (newExpiration, hostname)];
      reverse := reverse[hostname := login];
      var update := [];
      if oldLogin != Some(login) {
        if oldLogin.Some? && oldLogin.value != "" {
          removed := removed + {oldLogin.value};
        }
        update := [Item(Update, login, Some(hostname))];
      }
      var deletes := DeleteItems(removed);
      var msgs := deletes + update;
      assert msgs[..|removed|] == deletes && msgs[|removed|..] == update;
      if msgs != [] {
        posted := posted + [msgs];
      } else {
        assert |removed| == 0;
      }
    }

    /** `is_login_allowed` on the backlog `b` and the reverse backlog
        `rev`: None when `login` may log on `hostname`. `machines` and
        `users` are the answers of the machine database for the hostname and
        of the user database for the login. */
    static function IsLoginAllowed(b: Backlog, rev: map<string, string>, login: string, hostname: string,
                                   machines: seq<MachineRecord>, users: seq<UserRecord>): (r: Option<Refusal>)
      ensures login in b && b[login].1 == hostname ==> r == None
      ensures login in b && b[login].1 != hostname ==> r == Some(AlreadyLoggedElsewhere)
      ensures login !in b && hostname in rev ==> r == Some(Busy)
      ensures login !in b && hostname !in rev ==>
        (r == None <==> |machines| == 1 && |users| == 1
                         && !(users[0].group == "user" && machines[0].mtype != "user"))
      ensures r == Some(MachineNotRegistered) ==> |machines| != 1
      ensures r == Some(UserNotRegistered) ==> |machines| == 1 && |users| != 1
      ensures r == Some(UserNotAllowed) ==>
        |machines| == 1 && |users| == 1 && users[0].group == "user" && machines[0].mtype != "user"
      ensures r != Some(TooEarly)
    {
      if login in b && b[login].1 == hostname then None
      else if login in b then Some(AlreadyLoggedElsewhere)
      else if hostname in rev then Some(Busy)
      else if |machines| != 1 then Some(MachineNotRegistered)
      else if |users| != 1 then Some(UserNotRegistered)
      else if users[0].group == "user" && machines[0].mtype != "user" then Some(UserNotAllowed)
      else None
    }

    /** `start`: remember when the server started. */
    method Start(now: int)
      modifies this`startTs
      ensures startTs == Some(now)
    {
      startTs := Some(now);
    }

    /** `get_list`: login -> hostname for every login still valid. */
    method GetList(now: int) returns (list: map<string, string>)
      modifies this`backlog, this`reverse, this`posted
      ensures backlog == Remaining(old(backlog), now)
      ensures list.Keys == old(backlog).Keys - Expired(old(backlog), now)
      ensures forall l :: l in list ==> list[l] == old(backlog)[l].1 && old(backlog)[l].0 > now
      ensures Posted(old(posted), posted, Expired(old(backlog), now), [])
    {
      RemoveAndPublishExpired(now);
      list := map l | l in backlog :: backlog[l].1;
    }

    /** `request_login`: expire and publish; refuse everything until
        `timeout` seconds after the start; otherwise ask is_login_allowed on
        the backlog left by the expiry, and on success run update_backlog,
        which records the login and publishes a second batch. `mid` is the
        list of batches after the expiry's own. Any backlog is accepted:
        heartbeats reach update_backlog without these checks, so the two
        maps need not be inverse here. */
    method RequestLogin(login: string, hostname: string, now: int,
                        machines: seq<MachineRecord>, users: seq<UserRecord>)
      returns (r: Option<Refusal>, ghost mid: seq<seq<Item>>)
      modifies this`backlog, this`reverse, this`posted
      ensures Posted(old(posted), mid, Expired(old(backlog), now), [])
      ensures (startTs.None? || now < startTs.value + timeout) ==> r == Some(TooEarly)
      ensures startTs.Some? && now >= startTs.value + timeout ==>
        r == IsLoginAllowed(Remaining(old(backlog), now), ReverseRemaining(old(backlog), old(reverse), now),
                            login, hostname, machines, users)
      ensures r.Some? ==> backlog == Remaining(old(backlog), now)
      ensures r.Some? ==> reverse == ReverseRemaining(old(backlog), old(reverse), now)
      ensures r.Some? ==> posted == mid
      ensures r.None? ==> backlog == Remaining(old(backlog), now)[login := (now + timeout, hostname)]
      ensures r.None? ==> reverse == ReverseRemaining(old(backlog), old(reverse), now)[hostname := login]
      ensures r.None? ==>
        Posted(mid, posted,
               LoggedOff({}, Holder(ReverseRemaining(old(backlog), old(reverse), now), hostname), login),
               UpdateItems(Holder(ReverseRemaining(old(backlog), old(reverse), now), hostname), login, hostname))
    {
      RemoveAndPublishExpired(now);
      mid := posted;
      if startTs.None? || now < startTs.value + timeout {
        return Some(TooEarly), mid;
      }
      r := IsLoginAllowed(backlog, reverse, login, hostname, machines, users);
      if r.None? {
        ExpiryIdempotent(old(backlog), reverse, now);
        UpdateBacklog(login, hostname, now);
      }
    }

    /** `update_with_heartbeat` as corrected: expire and publish, then
        record the association as-is, without admission checks. */
    method UpdateWithHeartbeat(login: string, hostname: string, now: int)
      modifies this`backlog, this`reverse, this`posted
      ensures backlog == Remaining(old(backlog), now)[login := (now + timeout, hostname)]
      ensures hostname in reverse && reverse[hostname] == login
    {
      RemoveAndPublishExpired(now);
      ExpiryIdempotent(old(backlog), reverse, now);
      UpdateBacklog(login, hostname, now);
    }
  }

  /** `update_with_heartbeat` as written passes `self` twice to
      remove_and_publish_expired, which takes no argument: every call of it
      raises TypeError before the backlog is touched. Nothing in the server
      calls it (the heartbeat handler calls update_backlog directly), so the
      error stays latent. */
  datatype HeartbeatError = TypeError

  function UpdateWithHeartbeatAsWritten(b: Backlog, login: string, hostname: string, now: int): Result<Backlog, HeartbeatError>
  {
    Err(TypeError)
  }

  /** update_with_heartbeat as written never registers anybody: every call
      of it fails and leaves no backlog to record the login in (the
      corrected `UpdateWithHeartbeat` always records it). */
  lemma HeartbeatNeverRecorded(b: Backlog, login: string, hostname: string, now: int)
    ensures UpdateWithHeartbeatAsWritten(b, login, hostname, now) == Err(TypeError)
    ensures !UpdateWithHeartbeatAsWritten(b, login, hostname, now).Ok?
  {
  }

  /** Admitting a login that either already holds the hostname, or is not
      logged anywhere while the hostname is free, keeps the maps inverse. */
  lemma AdmitKeepsInverse(b: Backlog, r: map<string, string>, login: string, hostname: string, expiration: int)
    requires Inverse(b, r)
    requires (login in b && b[login].1 == hostname) || (login !in b && hostname !in r)
    ensures Inverse(b[login := (expiration, hostname)], r[hostname := login])
  {
    var b1 := b[login := (expiration, hostname)];
    var r1 := r[hostname := login];
    forall h | h in r1
      ensures r1[h] in b1 && b1[r1[h]].1 == h
    {
      if h != hostname {
        assert r[h] != login;
      }
    }
  }

  /** When the two maps start inverse, request_login keeps them inverse:
      after the expiry alone when the login is refused, and after the
      admission too when is_login_allowed accepts it. */
  lemma RequestLoginKeepsInverse(b: Backlog, r: map<string, string>, now: int, expiration: int,
                                 login: string, hostname: string,
                                 machines: seq<MachineRecord>, users: seq<UserRecord>)
    requires Inverse(b, r)
    ensures Inverse(Remaining(b, now), ReverseRemaining(b, r, now))
    ensures PresenceQueue.IsLoginAllowed(Remaining(b, now), ReverseRemaining(b, r, now),
                                         login, hostname, machines, users) == None ==>
      Inverse(Remaining(b, now)[login := (expiration, hostname)],
              ReverseRemaining(b, r, now)[hostname := login])
  {
    ExpiryKeepsInverse(b, r, now);
    var b1, r1 := Remaining(b, now), ReverseRemaining(b, r, now);
    if PresenceQueue.IsLoginAllowed(b1, r1, login, hostname, machines, users) == None {
      AdmitKeepsInverse(b1, r1, login, hostname, expiration);
    }
  }

  /** update_backlog does not keep the two maps inverse: a heartbeat that
      moves a login to another hostname leaves the old hostname pointing at
      it (the "do not free the previous hostname" comment of update_backlog).
      This is the state UpdateBacklog's ensures give after alice, logged on
      A until 10, sends a heartbeat from B at 5. */
  lemma HeartbeatMoveBreaksInverse(timeout: int)
    ensures var b := map["alice" := (10, "A")];
            var r := map["A" := "alice"];
            Inverse(b, r)
            && !Inverse(Remaining(b, 5)["alice" := (5 + timeout, "B")],
                        ReverseRemaining(b, r, 5)["B" := "alice"])
  {
    var b := map["alice" := (10, "A")];
    var r := map["A" := "alice"];
    assert Expired(b, 5) == {};
    assert HostsOf(b, {}) == {};
    var r1 := ReverseRemaining(b, r, 5)["B" := "alice"];
    var b1 := Remaining(b, 5)["alice" := (5 + timeout, "B")];
    assert "A" in r1 && r1["A"] == "alice" && b1["alice"].1 != "A";
  }
}
