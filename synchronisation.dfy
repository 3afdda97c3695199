/** The synchronisation library of python-lib/prologin/synchronisation.py:
    the server's update backlog and its subscribers, the signed update
    request a client posts and the server checks, and the reducer a polling
    client folds received updates with. JSON encoding and the HMAC-SHA256
    hex digest are parameters; the clock is the `now` parameter. */
module Synchronisation {
  import opened Common

  /** A record exchanged between clients, as string fields. */
  type Data = map<string, string>

  /** One update item: `{'type': kind, 'data': data}`. */
  datatype Update = Update(kind: string, data: Data)

  datatype SyncError =
    | NoSecret          // ValueError in send_updates
    | NoPrimaryKey      // ValueError in poll_updates
    | KeyError          // a missing dictionary key in the reducer
    | BadTimestamp      // int() of the ts argument fails
    | BadHmac           // HTTP 500: the HMAC does not match
    | StaleTimestamp    // HTTP 500: ts is not within 5 seconds of now

  // ---------------------------------------------------------------------
  // The server's backlog and subscribers (synchronisation.py:35-59)

  /** All batches of `batches`, concatenated. */
  function Flatten(batches: seq<seq<Update>>): (r: seq<Update>)
  {
    if batches == [] then [] else Flatten(batches[..|batches| - 1]) + batches[|batches| - 1]
  }

  lemma FlattenAppend(batches: seq<seq<Update>>, b: seq<Update>)
    ensures Flatten(batches + [b]) == Flatten(batches) + b
  {
    assert (batches + [b])[..|batches|] == batches;
  }

  lemma FlattenSuffixAppend(batches: seq<seq<Update>>, from: nat, b: seq<Update>)
    requires from <= |batches|
    ensures Flatten((batches + [b])[from..]) == Flatten(batches[from..]) + b
  {
    assert (batches + [b])[from..] == batches[from..] + [b];
    FlattenAppend(batches[from..], b);
  }

  /** The backlog of updates and the callbacks subscribed to it. Callbacks
      are identified by number; `delivered[c]` is every message callback `c`
      received, and `joined[c]` the index of the first one since it last
      registered. */
  class PubSubQueue {
    var backlog: seq<Update>
    var subscribers: set<nat>
    var delivered: map<nat, seq<seq<Update>>>
    ghost var joined: map<nat, nat>

    /** Every subscriber has received, since it registered, exactly the
        whole backlog: first the replay, then each later message. */
    ghost predicate Valid()
      reads this
    {
      (forall c :: c in subscribers ==>
         c in delivered && c in joined && joined[c] <= |delivered[c]|
         && Flatten(delivered[c][joined[c]..]) == backlog)
    }

    constructor (initialBacklog: seq<Update>)
      ensures Valid()
      ensures backlog == initialBacklog && subscribers == {} && delivered == map[]
    {
      backlog := initialBacklog;
      subscribers := {};
      delivered := map[];
      joined := map[];
    }

    /** `post_message(msg)`: extend the backlog and send the message to
        every subscriber. */
    method PostMessage(msg: seq<Update>)
      requires Valid()
      modifies this
      ensures Valid()
      ensures backlog == old(backlog) + msg && subscribers == old(subscribers)
      ensures forall c :: c in subscribers ==> delivered[c] == old(delivered)[c] + [msg]
      ensures forall c :: c in old(delivered) && c !in subscribers ==> c in delivered && delivered[c] == old(delivered)[c]
    {
      backlog := backlog + msg;
      var pending := subscribers;
      while pending != {}
        invariant pending <= subscribers == old(subscribers)
        invariant backlog == old(backlog) + msg && joined == old(joined)
        invariant delivered.Keys == old(delivered).Keys
        invariant forall c :: c in subscribers - pending ==> delivered[c] == old(delivered)[c] + [msg]
        invariant forall c :: c in old(delivered) && c !in subscribers - pending ==> delivered[c] == old(delivered)[c]
      {
        var c :| c in pending;
        delivered := delivered[c := delivered[c] + [msg]];
        pending := pending - {c};
      }
      forall c | c in subscribers
        ensures Flatten(delivered[c][joined[c]..]) == backlog
      {
        FlattenSuffixAppend(old(delivered)[c], joined[c], msg);
      }
    }

    /** `register_subscriber(c)`: send the whole backlog, then subscribe. */
    method RegisterSubscriber(c: nat)
      requires Valid()
      modifies this
      ensures Valid()
      ensures backlog == old(backlog) && subscribers == old(subscribers) + {c}
      ensures c in delivered && delivered[c] == (if c in old(delivered) then old(delivered)[c] else []) + [backlog]
      ensures forall d :: d in old(delivered) && d != c ==> d in delivered && delivered[d] == old(delivered)[d]
    {
      var previous := if c in delivered then delivered[c] else [];
      delivered := delivered[c := previous + [backlog]];
      joined := joined[c := |previous|];
      subscribers := subscribers + {c};
      assert delivered[c][joined[c]..] == [backlog];
      assert Flatten([backlog]) == Flatten([]) + backlog by { FlattenAppend([], backlog); }
    }

    /** `unregister_subscriber(c)`: KeyError when `c` is not subscribed. */
    method UnregisterSubscriber(c: nat) returns (r: Result<(), SyncError>)
      requires Valid()
      modifies this`subscribers
      ensures Valid()
      ensures r.Err? <==> c !in old(subscribers)
      ensures subscribers == old(subscribers) - {c}
    {
      if c !in subscribers {
        return Err(KeyError);
      }
      subscribers := subscribers - {c};
      r := Ok(());
    }
  }

  // ---------------------------------------------------------------------
  // Signed update requests (synchronisation.py:79-99, 151-165)

  /** The HMAC-SHA256 hex digest of a message under a secret. */
  type Hmac = (string, string) -> string

  /** What send_updates posts: the JSON message, its timestamp, its digest. */
  datatype Request = Request(msg: string, ts: string, hmac: string)

  /** The string both sides sign: the length of the message, ':', the
      message, then the timestamp. */
  function SigningString(msg: string, ts: int): (s: string)
    ensures IsPrefix(NatToString(|msg|) + ":" + msg, s)
  {
    NatToString(|msg|) + ":" + msg + IntToString(ts)
  }

  /** The parts a signing string is made of are found back in it: the
      length up to the first ':', then the message and the timestamp. */
  lemma SigningStringParts(msg: string, ts: int)
    ensures var s := SigningString(msg, ts);
      ':' in s && Find(s, ':') == |NatToString(|msg|)|
      && s[..Find(s, ':')] == NatToString(|msg|)
      && s[Find(s, ':') + 1..] == msg + IntToString(ts)
  {
    SigningStringShape(msg, ts);
    ColonSplitAt(SigningString(msg, ts), NatToString(|msg|), msg + IntToString(ts));
  }

  lemma SigningStringShape(msg: string, ts: int)
    ensures SigningString(msg, ts) == NatToString(|msg|) + ([':'] + (msg + IntToString(ts)))
  {
    ConcatAssoc(NatToString(|msg|), ":", msg, IntToString(ts));
  }

  lemma ConcatAssoc(a: string, b: string, c: string, d: string)
    ensures a + b + c + d == a + (b + (c + d))
  {
  }

  /** A signing string determines the message and a non-negative
      timestamp it was made from. */
  lemma SigningStringInjective(m1: string, t1: int, m2: string, t2: int)
    requires SigningString(m1, t1) == SigningString(m2, t2)
    requires t1 >= 0 && t2 >= 0
    ensures m1 == m2 && t1 == t2
  {
    var n1, n2 := NatToString(|m1|), NatToString(|m2|);
    var b1, b2 := m1 + IntToString(t1), m2 + IntToString(t2);
    SigningStringShape(m1, t1);
    SigningStringShape(m2, t2);
    DigitsColonSplit(n1, b1, n2, b2);
    NatToStringInjective(|m1|, |m2|);
    SameLengthSplit(m1, IntToString(t1), m2, IntToString(t2));
    ParseIntToString(t1);
    ParseIntToString(t2);
  }

  /** A digit string ended by ':' is found back from where the ':' is. */
  lemma DigitsColonSplit(n1: string, b1: string, n2: string, b2: string)
    requires AllDigits(n1) && AllDigits(n2)
    requires n1 + ([':'] + b1) == n2 + ([':'] + b2)
    ensures n1 == n2 && b1 == b2
  {
    ColonSplit(n1, b1);
    ColonSplit(n2, b2);
  }

  lemma SameLengthSplit(a1: string, b1: string, a2: string, b2: string)
    requires a1 + b1 == a2 + b2 && |a1| == |a2|
    ensures a1 == a2 && b1 == b2
  {
    assert a1 == (a1 + b1)[..|a1|] && a2 == (a2 + b2)[..|a2|];
    assert b1 == (a1 + b1)[|a1|..] && b2 == (a2 + b2)[|a2|..];
  }

  lemma ColonSplitAt(s: string, n: string, body: string)
    requires AllDigits(n) && s == n + ([':'] + body)
    ensures ':' in s && Find(s, ':') == |n|
    ensures s[..Find(s, ':')] == n && s[Find(s, ':') + 1..] == body
  {
    ColonSplit(n, body);
  }

  lemma ColonSplit(n: string, body: string)
    requires AllDigits(n)
    ensures var s := n + ([':'] + body);
      ':' in s && Find(s, ':') == |n| && s[..|n|] == n && s[|n| + 1..] == body
  {
    var s := n + ([':'] + body);
    assert s[|n|] == ':';
    assert forall i :: 0 <= i < |n| ==> s[i] == n[i];
    assert s[..|n|] == n;
    assert s[|n| + 1..] == body;
  }

  /** `Client.send_updates`: serialise, stamp with the truncated time, sign. */
  function SendUpdates(updates: seq<Update>, secret: Option<string>, now: int,
                       dumps: seq<Update> -> string, hmac: Hmac): (r: Result<Request, SyncError>)
    ensures r.Err? <==> secret.None?
    ensures r.Ok? ==> ParseInt(r.value.ts) == Some(now) && r.value.msg == dumps(updates)
  {
    if secret.None? then Err(NoSecret)
    else
      var msg := dumps(updates);
      ParseIntToString(now);
      Ok(Request(msg, IntToString(now), hmac(secret.value, SigningString(msg, now))))
  }

  /** `UpdateHandler.post`: the updates to post, or why the request is
      refused. */
  function AcceptUpdate(req: Request, secret: string, now: real,
                        loads: string -> seq<Update>, hmac: Hmac): (r: Result<seq<Update>, SyncError>)
    ensures r.Ok? ==>
      (ParseInt(req.ts).Some?
       && req.hmac == hmac(secret, SigningString(req.msg, ParseInt(req.ts).value))
       && now - 5.0 < ParseInt(req.ts).value as real < now + 5.0
       && r.value == loads(req.msg))
  {
    match ParseInt(req.ts)
    case None => Err(BadTimestamp)
    case Some(ts) =>
      if req.hmac != hmac(secret, SigningString(req.msg, ts)) then Err(BadHmac)
      else if !(now - 5.0 < ts as real < now + 5.0) then Err(StaleTimestamp)
      else Ok(loads(req.msg))
  }

  /** A request sent at second `sent` with the server's secret is accepted
      at time `now` exactly when the stamp is within five seconds of now,
      and then the server posts the very updates that were sent. */
  lemma {:induction false} SendThenAccept(updates: seq<Update>, secret: string, sent: int, now: real,
                                          dumps: seq<Update> -> string, loads: string -> seq<Update>, hmac: Hmac)
    requires loads(dumps(updates)) == updates
    ensures var req := SendUpdates(updates, Some(secret), sent, dumps, hmac).value;
      AcceptUpdate(req, secret, now, loads, hmac).Ok? <==> now - 5.0 < sent as real < now + 5.0
    ensures var req := SendUpdates(updates, Some(secret), sent, dumps, hmac).value;
      AcceptUpdate(req, secret, now, loads, hmac).Ok? ==> AcceptUpdate(req, secret, now, loads, hmac).value == updates
  {
    ParseIntToString(sent);
  }

  /** A request signed with another message or timestamp is refused by any
      HMAC that tells distinct signing strings apart. */
  lemma TamperedRefused(req: Request, secret: string, now: real, loads: string -> seq<Update>, hmac: Hmac,
                        msg: string, ts: int)
    requires forall a, b :: hmac(secret, a) == hmac(secret, b) ==> a == b
    requires req.hmac == hmac(secret, SigningString(msg, ts)) && ts >= 0
    requires req.msg != msg || ParseInt(req.ts) != Some(ts)
    requires ParseInt(req.ts).Some? && ParseInt(req.ts).value >= 0
    ensures AcceptUpdate(req, secret, now, loads, hmac).Err?
  {
    var t := ParseInt(req.ts).value;
    if req.hmac == hmac(secret, SigningString(req.msg, t)) {
      SigningStringInjective(req.msg, t, msg, ts);
    }
  }

  // ---------------------------------------------------------------------
  // The poll_updates reducer (synchronisation.py:167-190)

  /** The state after folding `updates` into `state`, keyed by the `pk`
      field of each record: an update stores its record, a delete of a
      known key drops it, a delete of an unknown key is only logged, other
      kinds are ignored. A record without the `pk` field is a KeyError. */
  function Reduce(state: map<string, Data>, updates: seq<Update>, pk: string): (r: Result<map<string, Data>, SyncError>)
    decreases |updates|
  {
    if updates == [] then Ok(state)
    else
      var u := updates[0];
      if u.kind == "update" then
        if pk !in u.data then Err(KeyError)
        else Reduce(state[u.data[pk] := u.data], updates[1..], pk)
      else if u.kind == "delete" then
        if pk !in u.data then Err(KeyError)
        else if u.data[pk] !in state then Reduce(state, updates[1..], pk)
        else Reduce(state - {u.data[pk]}, updates[1..], pk)
      else Reduce(state, updates[1..], pk)
  }

  /** Folding two batches one after the other is folding their
      concatenation: lines received on one connection compose. */
  lemma {:induction false} ReduceAppend(state: map<string, Data>, a: seq<Update>, b: seq<Update>, pk: string)
    ensures Reduce(state, a + b, pk) ==
      (if Reduce(state, a, pk).Ok? then Reduce(Reduce(state, a, pk).value, b, pk) else Reduce(state, a, pk))
    decreases |a|
  {
    if a != [] {
      assert (a + b)[0] == a[0] && (a + b)[1..] == a[1..] + b;
      var u := a[0];
      if u.kind == "update" && pk in u.data {
        ReduceAppend(state[u.data[pk] := u.data], a[1..], b, pk);
      } else if u.kind == "delete" && pk in u.data {
        if u.data[pk] in state {
          ReduceAppend(state - {u.data[pk]}, a[1..], b, pk);
        } else {
          ReduceAppend(state, a[1..], b, pk);
        }
      } else if u.kind != "update" && u.kind != "delete" {
        ReduceAppend(state, a[1..], b, pk);
      }
    } else {
      assert a + b == b;
    }
  }

  /** Every record in the state is stored under its own `pk` value. */
  ghost predicate Indexed(state: map<string, Data>, pk: string)
  {
    forall k :: k in state ==> pk in state[k] && state[k][pk] == k
  }

  /** The reducer keeps the state indexed by `pk`. */
  lemma {:induction false} ReduceKeepsIndexed(state: map<string, Data>, updates: seq<Update>, pk: string)
    requires Indexed(state, pk)
    ensures Reduce(state, updates, pk).Ok? ==> Indexed(Reduce(state, updates, pk).value, pk)
    decreases |updates|
  {
    if updates != [] {
      var u := updates[0];
      if u.kind == "update" && pk in u.data {
        ReduceKeepsIndexed(state[u.data[pk] := u.data], updates[1..], pk);
      } else if u.kind == "delete" && pk in u.data && u.data[pk] in state {
        ReduceKeepsIndexed(state - {u.data[pk]}, updates[1..], pk);
      } else if u.kind != "update" && !(u.kind == "delete" && pk !in u.data) {
        ReduceKeepsIndexed(state, updates[1..], pk);
      }
    }
  }

  /** Whether `u` stores or deletes the record under key `k`. */
  predicate Touches(u: Update, k: string, pk: string)
  {
    (u.kind == "update" || u.kind == "delete") && pk in u.data && u.data[pk] == k
  }

  /** The record key `k` holds after `updates`, read from the back: the
      last update that touches `k` decides (its record, or nothing for a
      delete), and without one the initial state does. */
  function LastRecord(state: map<string, Data>, updates: seq<Update>, k: string, pk: string): Option<Data>
    decreases |updates|
  {
    if updates == [] then (if k in state then Some(state[k]) else None)
    else
      var u := updates[|updates| - 1];
      if Touches(u, k, pk) then (if u.kind == "update" then Some(u.data) else None)
      else LastRecord(state, updates[..|updates| - 1], k, pk)
  }

  /** Last write wins: after a successful fold, a key is present exactly
      when the last update touching it stored a record (or, untouched, when
      it was present before), and it holds that record. */
  lemma {:induction false} ReduceLastWriteWins(state: map<string, Data>, updates: seq<Update>, pk: string, k: string)
    requires Reduce(state, updates, pk).Ok?
    ensures k in Reduce(state, updates, pk).value <==> LastRecord(state, updates, k, pk).Some?
    ensures k in Reduce(state, updates, pk).value ==>
      Reduce(state, updates, pk).value[k] == LastRecord(state, updates, k, pk).value
    decreases |updates|
  {
    if updates != [] {
      var init, u := updates[..|updates| - 1], updates[|updates| - 1];
      assert updates == init + [u];
      ReduceAppend(state, init, [u], pk);
      ReduceLastWriteWins(state, init, pk, k);
      assert [u][1..] == [];
    }
  }

  /** A delete of a stored record removes exactly that record. */
  lemma DeleteRemoves(state: map<string, Data>, d: Data, pk: string)
    requires pk in d && d[pk] in state
    ensures Reduce(state, [Update("delete", d)], pk) == Ok(state - {d[pk]})
  {
    assert [Update("delete", d)][1..] == [];
  }

  /** The reducer loop of `poll_updates` over one received line; ValueError
      without a primary-key field name. */
  method ApplyUpdates(pk: Option<string>, state: map<string, Data>, updates: seq<Update>)
    returns (r: Result<map<string, Data>, SyncError>)
    ensures pk.None? ==> r == Err(NoPrimaryKey)
    ensures pk.Some? ==> r == Reduce(state, updates, pk.value)
  {
    if pk.None? {
      return Err(NoPrimaryKey);
    }
    var key := pk.value;
    var current := state;
    var i := 0;
    while i < |updates|
      invariant 0 <= i <= |updates|
      invariant Reduce(state, updates, key) == Reduce(current, updates[i..], key)
      decreases |updates| - i
    {
      var data := updates[i].data;
      if updates[i].kind == "update" {
        if key !in data {
          return Err(KeyError);
        }
        current := current[data[key] := data];
      } else if updates[i].kind == "delete" {
        if key !in data {
          return Err(KeyError);
        }
        if data[key] in current {
          current := current - {data[key]};
        }
      }
      assert updates[i..][1..] == updates[i + 1..];
      i := i + 1;
    }
    r := Ok(current);
  }

  /** The reducer as written: on a delete of a stored record it deletes
      the key named by the field name itself, `del state[self.pk]`. */
  function ReduceAsWritten(state: map<string, Data>, updates: seq<Update>, pk: string): (r: Result<map<string, Data>, SyncError>)
    decreases |updates|
  {
    if updates == [] then Ok(state)
    else
      var u := updates[0];
      if u.kind == "update" then
        if pk !in u.data then Err(KeyError)
        else ReduceAsWritten(state[u.data[pk] := u.data], updates[1..], pk)
      else if u.kind == "delete" then
        if pk !in u.data then Err(KeyError)
        else if u.data[pk] !in state then ReduceAsWritten(state, updates[1..], pk)
        else if pk !in state then Err(KeyError)
        else ReduceAsWritten(state - {pk}, updates[1..], pk)
      else ReduceAsWritten(state, updates[1..], pk)
  }

  /** With records keyed by MAC address, deleting a stored machine makes
      the written reducer raise KeyError (dropping the connection), while
      the corrected one removes it. */
  lemma DeleteAsWrittenFails()
    ensures var d := map["mac" := "aa:bb"];
      ReduceAsWritten(map["aa:bb" := d], [Update("delete", d)], "mac") == Err(KeyError)
      && Reduce(map["aa:bb" := d], [Update("delete", d)], "mac") == Ok(map[])
  {
    var d := map["mac" := "aa:bb"];
    var s := map["aa:bb" := d];
    assert "mac" !in s;
    assert s - {"aa:bb"} == map[];
    assert [Update("delete", d)][1..] == [];
  }
}
