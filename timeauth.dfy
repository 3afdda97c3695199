/** Time-limited tokens of prologin/timeauth.py: a token is a Unix timestamp
    and an HMAC of the message followed by that timestamp. The HMAC-SHA256
    hex digest is a parameter; the clock is the `now` parameter. */
module TimeAuth {
  import opened Common

  /** Validity time of a token, in seconds. */
  const TOKEN_TIMEOUT: int := 120

  /** `get_hmac(secret, message)`: the hex digest of the keyed hash. */
  type Hmac = (string, string) -> string

  /** A hex digest never contains the ':' that separates token fields. */
  ghost predicate HexDigests(hmac: Hmac)
  {
    forall secret, message :: ':' !in hmac(secret, message)
  }

  /** Python's `int(x)` on a float: truncation toward zero. */
  function Trunc(x: real): (i: int)
    ensures x >= 0.0 ==> i as real <= x < i as real + 1.0
    ensures x < 0.0 ==> i as real - 1.0 < x <= i as real
  {
    if x >= 0.0 then x.Floor else -((-x).Floor)
  }

  /** `str(message)`, message defaulting to None. */
  function Str(message: Option<string>): string
  {
    if message.None? then "None" else message.value
  }

  /** `generate_token(secret, message)` at time `now`. */
  function GenerateToken(secret: string, message: Option<string>, now: real, hmac: Hmac): (token: string)
    requires HexDigests(hmac)
    ensures Split(token, ':') == [IntToString(Trunc(now)), hmac(secret, Str(message) + IntToString(Trunc(now)))]
  {
    var timestamp := IntToString(Trunc(now));
    var digest := hmac(secret, Str(message) + timestamp);
    NoColonInNumber(Trunc(now));
    SplitJoin([timestamp, digest], ':');
    timestamp + [':'] + digest
  }

  lemma NoColonInNumber(i: int)
    ensures ':' !in IntToString(i)
  {
    var s := IntToString(i);
    if i >= 0 {
      assert AllDigits(s);
    } else {
      assert AllDigits(s[1..]);
      assert s == "-" + s[1..];
    }
  }

  /** `check_token(token, secret, message)` at time `now`, with the
      `enabled` switch of the timeauth configuration. */
  function CheckToken(token: Option<string>, secret: string, message: Option<string>,
                      enabled: bool, now: real, hmac: Hmac): (ok: bool)
    ensures !enabled ==> ok
    ensures enabled && token.None? ==> !ok
    ensures enabled && token.Some? && |Split(token.value, ':')| != 2 ==> !ok
    ensures (enabled && token.Some? && |Split(token.value, ':')| == 2
             && ParseInt(Split(token.value, ':')[0]).None?) ==> !ok
    ensures enabled && ok ==>
      token.Some? && |Split(token.value, ':')| == 2
      && var chunks := Split(token.value, ':');
         ParseInt(chunks[0]).Some?
         && now - ParseInt(chunks[0]).value as real <= TOKEN_TIMEOUT as real
         && chunks[1] == hmac(secret, Str(message) + chunks[0])
  {
    if !enabled then true
    else if token.None? then false
    else
      var chunks := Split(token.value, ':');
      if |chunks| != 2 then false
      else match ParseInt(chunks[0])
        case None => false
        case Some(timestamp) =>
          if now - timestamp as real > TOKEN_TIMEOUT as real then false
          else hmac(secret, Str(message) + chunks[0]) == chunks[1]
  }

  /** A token made by generate_token at `issued` is accepted at `now`, with
      the same secret and message, exactly while no more than TOKEN_TIMEOUT
      seconds separate now from the truncated issue time. */
  lemma {:induction false} GeneratedTokenAccepted(secret: string, message: Option<string>,
                                                  issued: real, now: real, hmac: Hmac)
    requires HexDigests(hmac)
    ensures CheckToken(Some(GenerateToken(secret, message, issued, hmac)), secret, message, true, now, hmac)
        <==> now - Trunc(issued) as real <= TOKEN_TIMEOUT as real
  {
    ParseIntToString(Trunc(issued));
  }

  /** In particular a token checked within 119 seconds of its generation is
      always accepted, and one checked more than 120 seconds later never is. */
  lemma GeneratedTokenWindow(secret: string, message: Option<string>, issued: real, now: real, hmac: Hmac)
    requires HexDigests(hmac) && issued >= 0.0
    ensures now - issued <= (TOKEN_TIMEOUT - 1) as real ==>
      CheckToken(Some(GenerateToken(secret, message, issued, hmac)), secret, message, true, now, hmac)
    ensures now - issued > TOKEN_TIMEOUT as real ==>
      !CheckToken(Some(GenerateToken(secret, message, issued, hmac)), secret, message, true, now, hmac)
  {
    GeneratedTokenAccepted(secret, message, issued, now, hmac);
  }
}
