/** The DNS zones regenerated at each update of the machine database, after
    dns/mdbdns.py: every zone file carries a serial one above the one it
    replaces, a header, then one tab-separated record per line. The zone
    directory is an object whose map of file contents the builds update;
    reloading the name server is left to the caller. */
module MdbDns {
  import opened Common
  import MdbModels

  // ---------------------------------------------------------------------
  // Searching text (str.index, str.rindex)

  predicate OccursAt(text: string, pat: string, i: nat)
  {
    i + |pat| <= |text| && text[i..i + |pat|] == pat
  }

  /** `text.index(pat, i)`: the first occurrence of `pat` at or after `i`,
      none where Python raises `ValueError`. */
  function IndexFrom(text: string, pat: string, i: nat): (r: Option<nat>)
    ensures r.Some? ==> i <= r.value && OccursAt(text, pat, r.value) &&
                        forall j :: i <= j < r.value ==> !OccursAt(text, pat, j)
    ensures r.None? ==> forall j :: i <= j ==> !OccursAt(text, pat, j)
    decreases |text| - i
  {
    if |text| < i + |pat| then None
    else if OccursAt(text, pat, i) then Some(i)
    else IndexFrom(text, pat, i + 1)
  }

  /** `s.rindex(c)`: the last position of `c` in `s`. */
  function LastIndexOf(s: string, c: char): (r: Option<nat>)
    ensures r.Some? ==> r.value < |s| && s[r.value] == c && c !in s[r.value + 1..]
    ensures r.None? ==> c !in s
  {
    if s == [] then None
    else if s[|s| - 1] == c then Some(|s| - 1)
    else
      var r := LastIndexOf(s[..|s| - 1], c);
      assert s == s[..|s| - 1] + [s[|s| - 1]];
      assert r.Some? ==> s[r.value + 1..] == s[..|s| - 1][r.value + 1..] + [s[|s| - 1]];
      r
  }

  /** `s.index(c)`: the first position of `c` in `s`. */
  function FirstIndexOf(s: string, c: char): (r: Option<nat>)
    ensures r.Some? ==> r.value < |s| && s[r.value] == c && c !in s[..r.value]
    ensures r.None? ==> c !in s
  {
    if c in s then Some(Find(s, c)) else None
  }

  // ---------------------------------------------------------------------
  // The zone file

  /** A record: owner name, class, type and data. */
  type Record = seq<string>

  const SerialMarker: string := "@@SERIAL@@"

  /** The header lines above the serial's, cut around the one `@` they hold. */
  const Banner: string := "; THIS IS A GENERATED FILE\n"
  const Warning: string := "; Do not modify it manually - see mdbdns.py\n"
  const Ttl: string := "$TTL\t10\n"
  const HeaderIntro: string := Banner + Warning + Ttl
  const HeaderSoa: string := "\tIN\tSOA\tns.prolo.\thostmaster.ns.prolo.\t(\n"
  /** The end of the serial's line and the header lines below it. */
  const HeaderBottom: string := "\n\t\t\t1200 ; Refresh\n\t\t\t60 ; Retry\n\t\t\t360000 ; Expire\n\t\t\t10 ); Negative TTL\n\t\tNS\tns.prolo.\n\n; Auto-generated zone\n"

  /** The header up to the tab before the serial. */
  const HeaderTop: string := HeaderIntro + "@" + HeaderSoa + "\t\t"

  function Header(serial: int): string
  {
    HeaderTop + "\t" + IntToString(serial) + " ; " + SerialMarker + HeaderBottom
  }

  /** The records, each tab-joined, newline-separated, with a final newline. */
  function Body(records: seq<Record>): string
  {
    Join(seq(|records|, i requires 0 <= i < |records| => Join(records[i], '\t')), '\n') + "\n"
  }

  function ZoneText(serial: int, records: seq<Record>): string
  {
    Header(serial) + Body(records)
  }

  datatype SerialError = NoSerialMarker | NoTabBeforeSerial | NoSpaceAfterSerial | SerialNotANumber

  /** The serial of a zone about to be written: 1 without a previous file,
      else the previous one plus one, read between the last tab before the
      first `@@SERIAL@@` and the next space. */
  function NextSerial(existing: Option<string>): Result<int, SerialError>
  {
    match existing
    case None => Ok(1)
    case Some(text) =>
      match IndexFrom(text, SerialMarker, 0)
      case None => Err(NoSerialMarker)
      case Some(commentPos) => SerialBefore(text[..commentPos])
  }

  /** The serial in the text before the marker, which starts after its
      last tab. */
  function SerialBefore(head: string): Result<int, SerialError>
  {
    match LastIndexOf(head, '\t')
    case None => Err(NoTabBeforeSerial)
    case Some(tab) => SerialField(head[tab + 1..])
  }

  /** The number before the first space of `field`, plus one. */
  function SerialField(field: string): Result<int, SerialError>
  {
    match FirstIndexOf(field, ' ')
    case None => Err(NoSpaceAfterSerial)
    case Some(len) =>
      match ParseInt(field[..len])
      case None => Err(SerialNotANumber)
      case Some(v) => Ok(v + 1)
  }

  /** `build_zone` on the file's previous contents, if any: the new contents. */
  function Regenerate(existing: Option<string>, records: seq<Record>): Result<string, SerialError>
  {
    match NextSerial(existing)
    case Ok(serial) => Ok(ZoneText(serial, records))
    case Err(e) => Err(e)
  }

  lemma IntToStringChars(i: int)
    ensures '@' !in IntToString(i) && ' ' !in IntToString(i) && '\t' !in IntToString(i)
  {
    var d := NatToString(if i < 0 then -i else i);
    assert forall k :: 0 <= k < |d| ==> IsDigit(d[k]);
  }

  /** No two `@` in a row, and no `@` at the end. */
  predicate NoDoubleAt(s: string)
  {
    forall j :: 0 <= j < |s| ==> s[j] != '@' || (j + 1 < |s| && s[j + 1] != '@')
  }

  lemma NoDoubleAtConcat(a: string, b: string)
    requires NoDoubleAt(a) && NoDoubleAt(b)
    ensures NoDoubleAt(a + b)
  {
    forall j | 0 <= j < |a + b|
      ensures (a + b)[j] != '@' || (j + 1 < |a + b| && (a + b)[j + 1] != '@')
    {
      if j < |a| {
        assert (a + b)[j] == a[j];
        assert a[j] != '@' || (j + 1 < |a| && a[j + 1] != '@');
        if j + 1 < |a| {
          assert (a + b)[j + 1] == a[j + 1];
        }
      } else {
        assert (a + b)[j] == b[j - |a|];
        assert b[j - |a|] != '@' || (j - |a| + 1 < |b| && b[j - |a| + 1] != '@');
        if j + 1 < |a + b| {
          assert (a + b)[j + 1] == b[j + 1 - |a|];
        }
      }
    }
  }

  lemma NoAtNoDoubleAt(s: string)
    requires '@' !in s
    ensures NoDoubleAt(s)
  {
    assert forall j :: 0 <= j < |s| ==> s[j] in s;
  }

  /** Only the serial's own marker matches `@@SERIAL@@` in a zone file:
      the text before it never holds two `@` in a row. */
  lemma MarkerFirstAt(text: string, p: string, rest: string)
    requires text == p + SerialMarker + rest
    requires NoDoubleAt(p)
    ensures IndexFrom(text, SerialMarker, 0) == Some(|p|)
  {
    assert text[|p|..|p| + |SerialMarker|] == SerialMarker;
    forall j | 0 <= j < |p|
      ensures !OccursAt(text, SerialMarker, j)
    {
      assert text[j] == p[j];
      assert p[j] != '@' || (j + 1 < |p| && p[j + 1] != '@');
      assert SerialMarker[0] == '@';
      assert text[j + 1] == if j + 1 < |p| then p[j + 1] else SerialMarker[0];
      assert text[j] != '@' || text[j + 1] != '@';
      if j + |SerialMarker| <= |text| {
        var w := text[j..j + |SerialMarker|];
        assert w[0] == text[j] && w[1] == text[j + 1];
        assert w[0] != SerialMarker[0] || w[1] != SerialMarker[1];
      }
    }
    assert OccursAt(text, SerialMarker, |p|);
  }

  lemma LastTabAt(pre: string, field: string)
    requires pre != [] && pre[|pre| - 1] == '\t' && '\t' !in field
    ensures LastIndexOf(pre + field, '\t') == Some(|pre| - 1)
  {
    var p := pre + field;
    assert p[|pre| - 1] == '\t' && p[|pre| - 1] in p;
    forall k | 0 < k < |pre|
      ensures '\t' in p[k..]
    {
      assert p[k..][|pre| - 1 - k] == '\t';
    }
    assert forall k :: |pre| <= k < |p| ==> p[k] == field[k - |pre|];
  }

  lemma FirstSpaceAt(s: string)
    requires ' ' !in s
    ensures FirstIndexOf(s + " ; ", ' ') == Some(|s|)
  {
    assert s + " ; " == s + [' '] + "; ";
    FindAfter(s, "; ", ' ');
  }

  lemma SerialFieldOf(v: int)
    ensures SerialField(IntToString(v) + " ; ") == Ok(v + 1)
  {
    var s := IntToString(v);
    IntToStringChars(v);
    FirstSpaceAt(s);
    assert (s + " ; ")[..|s|] == s;
    ParseIntToString(v);
  }

  lemma SerialBeforeOf(a: string, v: int)
    ensures SerialBefore(a + "\t" + IntToString(v) + " ; ") == Ok(v + 1)
  {
    var field := IntToString(v) + " ; ";
    IntToStringChars(v);
    assert '\t' !in field;
    assert a + "\t" + IntToString(v) + " ; " == (a + "\t") + field;
    LastTabAt(a + "\t", field);
    assert ((a + "\t") + field)[|a| + 1..] == field;
    SerialFieldOf(v);
  }

  /** The serial field read back: `a` ends at the last tab before the
      serial's text and holds no `@@`. */
  lemma SerialReadBack(a: string, v: int, rest: string, more: string)
    requires NoDoubleAt(a)
    ensures NextSerial(Some(a + "\t" + IntToString(v) + " ; " + SerialMarker + rest + more)) == Ok(v + 1)
  {
    var p := a + "\t" + IntToString(v) + " ; ";
    var field := "\t" + IntToString(v) + " ; ";
    IntToStringChars(v);
    assert '@' !in field;
    NoAtNoDoubleAt(field);
    NoDoubleAtConcat(a, field);
    assert p == a + field;
    var text := a + "\t" + IntToString(v) + " ; " + SerialMarker + rest + more;
    assert text == p + SerialMarker + (rest + more);
    MarkerFirstAt(text, p, rest + more);
    assert text[..|p|] == p;
    SerialBeforeOf(a, v);
  }

  lemma BannerNoAt() ensures '@' !in Banner {}
  lemma WarningNoAt() ensures '@' !in Warning {}
  lemma SoaNoAt() ensures '@' !in HeaderSoa + "\t\t" {}

  /** The header above the serial's tab never holds `@@`. */
  lemma HeaderNoDoubleAt()
    ensures NoDoubleAt(HeaderTop)
  {
    BannerNoAt();
    WarningNoAt();
    SoaNoAt();
    var tail := HeaderSoa + "\t\t";
    assert '@' !in HeaderIntro;
    NoAtNoDoubleAt(HeaderIntro);
    forall j | 0 <= j < |"@" + tail|
      ensures ("@" + tail)[j] != '@' || (j + 1 < |"@" + tail| && ("@" + tail)[j + 1] != '@')
    {
      if j > 0 {
        assert ("@" + tail)[j] == tail[j - 1];
      } else {
        assert ("@" + tail)[1] == tail[0] == '\t';
      }
    }
    NoDoubleAtConcat(HeaderIntro, "@" + tail);
    assert HeaderTop == HeaderIntro + ("@" + tail);
  }

  /** The serial read back from a generated zone is the one written, plus
      one: each regeneration raises the serial by exactly one, whatever the
      records. */
  lemma ZoneSerialBumps(serial: int, records: seq<Record>)
    ensures NextSerial(Some(ZoneText(serial, records))) == Ok(serial + 1)
  {
    HeaderNoDoubleAt();
    SerialReadBack(HeaderTop, serial, HeaderBottom, Body(records));
  }

  /** A new zone file starts at serial 1, and rewriting a generated one
      moves its serial up by one. */
  lemma RegenerateSerials(serial: int, before: seq<Record>, after: seq<Record>)
    ensures Regenerate(None, after) == Ok(ZoneText(1, after))
    ensures Regenerate(Some(ZoneText(serial, before)), after) == Ok(ZoneText(serial + 1, after))
  {
    ZoneSerialBumps(serial, before);
  }

  /** The records a zone body lists: one per line, fields split at tabs. */
  function BodyRecords(body: string): seq<Record>
  {
    var content := if body != [] && body[|body| - 1] == '\n' then body[..|body| - 1] else body;
    if content == [] then []
    else
      var lines := Split(content, '\n');
      seq(|lines|, i requires 0 <= i < |lines| => Split(lines[i], '\t'))
  }

  /** Four fields, none holding a tab or a newline. */
  predicate WellFormed(records: seq<Record>)
  {
    forall i :: 0 <= i < |records| ==>
      |records[i]| == 4 && forall k :: 0 <= k < 4 ==> '\t' !in records[i][k] && '\n' !in records[i][k]
  }

  /** The body holds the records and nothing else: they are read back
      from it in order. */
  lemma BodyRoundTrip(records: seq<Record>)
    requires WellFormed(records)
    ensures BodyRecords(Body(records)) == records
  {
    var lines := seq(|records|, i requires 0 <= i < |records| => Join(records[i], '\t'));
    var content := Join(lines, '\n');
    assert Body(records)[..|Body(records)| - 1] == content;
    if records != [] {
      assert |lines[0]| > 0;
      assert |content| >= |lines[0]|;
      forall i | 0 <= i < |lines|
        ensures '\n' !in lines[i]
      {
        if '\n' in lines[i] {
          JoinElements(records[i], '\t', '\n');
        }
      }
      SplitJoin(lines, '\n');
      forall i | 0 <= i < |records|
        ensures Split(lines[i], '\t') == records[i]
      {
        SplitJoin(records[i], '\t');
      }
    }
  }

  // ---------------------------------------------------------------------
  // Records

  /** What the machine database sends about a machine. */
  datatype MachineEntry = MachineEntry(hostname: string, mtype: string, ip: string, aliases: string)

  /** The machines of one type, in order. */
  function OfType(machines: seq<MachineEntry>, mtype: string): (r: seq<MachineEntry>)
    ensures forall m :: m in r <==> m in machines && m.mtype == mtype
  {
    if machines == [] then []
    else
      (if machines[0].mtype == mtype then [machines[0]] else []) + OfType(machines[1..], mtype)
  }

  /** `build_alien_revdns_zone`: a PTR record for every host 1 to 253 of the
      alien range and one for its gateway, 254. */
  function AlienReverseRecords(): seq<Record>
  {
    seq(253, i requires 0 <= i < 253 => [NatToString(i + 1), "IN", "PTR", "unknown-" + NatToString(i + 1) + ".alien.prolo."])
      + [["254", "IN", "PTR", "gw.alien.prolo."]]
  }

  /** The alien reverse zone names each host 1 to 254 once, in order, and
      the last one is the gateway. */
  lemma AlienReverseCovers()
    ensures var r := AlienReverseRecords();
      |r| == 254 &&
      (forall i :: 0 <= i < 254 ==> |r[i]| == 4 && r[i][0] == NatToString(i + 1) && r[i][1] == "IN" && r[i][2] == "PTR") &&
      (forall i, j :: 0 <= i < j < 254 ==> r[i][0] != r[j][0]) &&
      r[253][3] == "gw.alien.prolo."
  {
    var r := AlienReverseRecords();
    assert NatToString(254) == "254";
    forall i | 0 <= i < 254
      ensures |r[i]| == 4 && r[i][0] == NatToString(i + 1) && r[i][1] == "IN" && r[i][2] == "PTR"
    {
    }
    forall i, j | 0 <= i < j < 254
      ensures r[i][0] != r[j][0]
    {
    }
  }

  /** The machines of a reverse zone as written: the organizers are looked
      for among the machines already restricted to `mtype`. */
  function ReverseMachinesAsWritten(machines: seq<MachineEntry>, mtype: string): seq<MachineEntry>
  {
    var selected := OfType(machines, mtype);
    selected + (if mtype == "user" then OfType(selected, "orga") else [])
  }

  lemma OfTypeNone(machines: seq<MachineEntry>, mtype: string)
    requires forall m :: m in machines ==> m.mtype != mtype
    ensures OfType(machines, mtype) == []
  {
  }

  /** As written, the user reverse zone never lists an organizer machine. */
  lemma OrgaLeftOutAsWritten(machines: seq<MachineEntry>)
    ensures forall m :: m in ReverseMachinesAsWritten(machines, "user") ==> m.mtype == "user"
  {
    var selected := OfType(machines, "user");
    OfTypeNone(selected, "orga");
    assert ReverseMachinesAsWritten(machines, "user") == selected;
  }

  /** An organizer machine, whose address comes from the users' pool, gets
      no PTR record as written, and one once organizers are added. */
  lemma OrgaReverseCounterexample()
    ensures var orga := MachineEntry("orga1", "orga", "192.168.0.5", "");
      orga !in ReverseMachinesAsWritten([orga], "user") && orga in ReverseMachines([orga], "user")
  {
    var orga := MachineEntry("orga1", "orga", "192.168.0.5", "");
    OrgaLeftOutAsWritten([orga]);
    assert orga in OfType([orga], "orga");
  }

  /** The machines of a reverse zone: those of its type, followed for the
      user zone by the organizers, who share the users' addresses. */
  function ReverseMachines(machines: seq<MachineEntry>, mtype: string): seq<MachineEntry>
  {
    OfType(machines, mtype) + (if mtype == "user" then OfType(machines, "orga") else [])
  }

  /** A machine is in a reverse zone exactly when it has the zone's type,
      or is an organizer and the zone is the users'. */
  lemma ReverseMachinesSpec(machines: seq<MachineEntry>, mtype: string)
    ensures forall m :: m in ReverseMachines(machines, mtype) <==>
      m in machines && (m.mtype == mtype || (mtype == "user" && m.mtype == "orga"))
  {
  }

  /** The owner name of a machine's PTR record: the last dot-separated part of
      its address. */
  function ReverseName(ip: string): string
  {
    var parts := Split(ip, '.');
    parts[|parts| - 1]
  }

  function ReverseRecord(m: MachineEntry): Record
  {
    [ReverseName(m.ip), "IN", "PTR", m.hostname + ".prolo."]
  }

  /** `build_machines_revdns_zone`'s records. */
  function ReverseRecords(machines: seq<MachineEntry>): (r: seq<Record>)
  {
    seq(|machines|, i requires 0 <= i < |machines| => ReverseRecord(machines[i]))
  }

  /** For an address the machine database allocated, the owner name is the
      decimal text of its last octet. */
  lemma ReverseNameOfAddress(a: nat)
    requires a < MdbModels.AddressSpace
    ensures ReverseName(MdbModels.Dotted(a)) == NatToString(a % 256)
  {
    SplitJoin(MdbModels.Octets(a), '.');
  }

  /** The names a machine answers to: its hostname, then each of its
      comma-separated aliases, stripped. */
  function Names(m: MachineEntry): (r: seq<string>)
  {
    var aliases := Split(m.aliases, ',');
    [m.hostname] + seq(|aliases|, i requires 0 <= i < |aliases| => Strip(aliases[i]))
  }

  function ARecords(names: seq<string>, ip: string): seq<Record>
  {
    seq(|names|, k requires 0 <= k < |names| => [names[k], "IN", "A", ip])
  }

  /** The records of the normal zone, machine by machine. */
  function NormalZoneRecords(machines: seq<MachineEntry>): seq<Record>
  {
    if machines == [] then []
    else
      var m := machines[|machines| - 1];
      NormalZoneRecords(machines[..|machines| - 1]) + ARecords(Names(m), m.ip)
  }

  /** The normal zone holds an address record for exactly the names of
      the machines, each with its machine's address. */
  lemma NormalZoneSpec(machines: seq<MachineEntry>)
    ensures forall rec :: rec in NormalZoneRecords(machines) <==>
      exists i, k :: 0 <= i < |machines| && 0 <= k < |Names(machines[i])| &&
                     rec == [Names(machines[i])[k], "IN", "A", machines[i].ip]
  {
    forall rec | rec in NormalZoneRecords(machines)
      ensures exists i, k :: 0 <= i < |machines| && 0 <= k < |Names(machines[i])| &&
                             rec == [Names(machines[i])[k], "IN", "A", machines[i].ip]
    {
      NormalZoneSound(machines, rec);
    }
    forall i, k | 0 <= i < |machines| && 0 <= k < |Names(machines[i])|
      ensures [Names(machines[i])[k], "IN", "A", machines[i].ip] in NormalZoneRecords(machines)
    {
      NormalZoneComplete(machines, i, k);
    }
  }

  /** Every record of the normal zone names one of a machine's names. */
  lemma {:induction false} NormalZoneSound(machines: seq<MachineEntry>, rec: Record)
    requires rec in NormalZoneRecords(machines)
    ensures exists i, k :: 0 <= i < |machines| && 0 <= k < |Names(machines[i])| &&
                           rec == [Names(machines[i])[k], "IN", "A", machines[i].ip]
  {
    var init := machines[..|machines| - 1];
    var m := machines[|machines| - 1];
    var recs := ARecords(Names(m), m.ip);
    assert NormalZoneRecords(machines) == NormalZoneRecords(init) + recs;
    if rec in NormalZoneRecords(init) {
      NormalZoneSound(init, rec);
      var i, k :| 0 <= i < |init| && 0 <= k < |Names(init[i])| && rec == [Names(init[i])[k], "IN", "A", init[i].ip];
      assert init[i] == machines[i];
    } else {
      var k :| 0 <= k < |recs| && recs[k] == rec;
      assert rec == [Names(machines[|machines| - 1])[k], "IN", "A", machines[|machines| - 1].ip];
    }
  }

  /** Every name of every machine has its record in the normal zone. */
  lemma {:induction false} NormalZoneComplete(machines: seq<MachineEntry>, i: nat, k: nat)
    requires i < |machines| && k < |Names(machines[i])|
    ensures [Names(machines[i])[k], "IN", "A", machines[i].ip] in NormalZoneRecords(machines)
  {
    var init := machines[..|machines| - 1];
    var m := machines[|machines| - 1];
    assert NormalZoneRecords(machines) == NormalZoneRecords(init) + ARecords(Names(m), m.ip);
    if i < |machines| - 1 {
      assert init[i] == machines[i];
      NormalZoneComplete(init, i, k);
    } else {
      assert ARecords(Names(m), m.ip)[k] == [Names(machines[i])[k], "IN", "A", machines[i].ip];
    }
  }

  /** `build_normal_prolo_zone`'s loop over the machines and their names. */
  method NormalRecords(machines: seq<MachineEntry>) returns (records: seq<Record>)
    ensures records == NormalZoneRecords(machines)
  {
    records := [];
    var i := 0;
    while i < |machines|
      invariant i <= |machines|
      invariant records == NormalZoneRecords(machines[..i])
    {
      var m := machines[i];
      records := AddressRecords(records, Names(m), m.ip);
      assert machines[..i + 1][..i] == machines[..i];
      i := i + 1;
    }
    assert machines[..i] == machines;
  }

  /** The inner loop: one address record per name, appended in order. */
  method AddressRecords(records: seq<Record>, names: seq<string>, ip: string) returns (r: seq<Record>)
    ensures r == records + ARecords(names, ip)
  {
    r := records;
    var j := 0;
    while j < |names|
      invariant j <= |names|
      invariant r == records + ARecords(names[..j], ip)
    {
      assert ARecords(names[..j + 1], ip) == ARecords(names[..j], ip) + [[names[j], "IN", "A", ip]];
      r := r + [[names[j], "IN", "A", ip]];
      j := j + 1;
    }
    assert names[..j] == names;
  }

  /** `build_alien_prolo_zone`'s records: the alien range reaches only the
      network boot server and the name server. */
  const AlienProloRecords: seq<Record> := [["netboot", "IN", "A", "192.168.250.254"], ["ns", "IN", "A", "192.168.250.254"]]

  // ---------------------------------------------------------------------
  // The zone directory

  datatype Zone = Zone(name: string, records: seq<Record>)

  /** The zones of `update_dns_config`, in the order it builds them,
      corrected: the user reverse zone lists the organizers' machines too
      (ReverseMachines; as written, ReverseMachinesAsWritten). */
  function Zones(machines: seq<MachineEntry>): seq<Zone>
  {
    [Zone("250.168.192.in-addr.arpa", AlienReverseRecords()),
     Zone("0.168.192.in-addr.arpa", ReverseRecords(ReverseMachines(machines, "user"))),
     Zone("1.168.192.in-addr.arpa", ReverseRecords(ReverseMachines(machines, "service"))),
     Zone("2.168.192.in-addr.arpa", ReverseRecords(ReverseMachines(machines, "cluster"))),
     Zone("prolo_alien", AlienProloRecords),
     Zone("prolo_normal", NormalZoneRecords(machines))]
  }

  function Existing(files: map<string, string>, name: string): Option<string>
  {
    if name in files then Some(files[name]) else None
  }

  /** The zone files after building zones in turn, and the error that
      stopped the builds, if any; zones built before it stay written. */
  datatype Outcome = Outcome(files: map<string, string>, err: Option<SerialError>)

  function BuildAll(files: map<string, string>, zones: seq<Zone>): Outcome
    decreases |zones|
  {
    if zones == [] then Outcome(files, None)
    else
      match Regenerate(Existing(files, zones[0].name), zones[0].records)
      case Err(e) => Outcome(files, Some(e))
      case Ok(text) => BuildAll(files[zones[0].name := text], zones[1..])
  }

  predicate DistinctNames(zones: seq<Zone>)
  {
    forall i, j :: 0 <= i < j < |zones| ==> zones[i].name != zones[j].name
  }

  /** With distinct zone names, a complete run leaves each zone's file
      regenerated from its own previous contents. */
  lemma {:induction false} BuildAllDone(files: map<string, string>, zones: seq<Zone>)
    requires DistinctNames(zones)
    requires BuildAll(files, zones).err.None?
    decreases |zones|
    ensures forall i :: 0 <= i < |zones| ==>
      zones[i].name in BuildAll(files, zones).files &&
      Regenerate(Existing(files, zones[i].name), zones[i].records) == Ok(BuildAll(files, zones).files[zones[i].name])
  {
    if zones != [] {
      var z := zones[0];
      var text := Regenerate(Existing(files, z.name), z.records).value;
      var next := files[z.name := text];
      var o := BuildAll(files, zones);
      assert o == BuildAll(next, zones[1..]);
      BuildAllDone(next, zones[1..]);
      BuildAllKeeps(next, zones[1..], z.name);
      forall i | 0 <= i < |zones|
        ensures zones[i].name in o.files &&
                Regenerate(Existing(files, zones[i].name), zones[i].records) == Ok(o.files[zones[i].name])
      {
        if i > 0 {
          assert zones[1..][i - 1] == zones[i];
          assert zones[0].name != zones[i].name;
          assert Existing(next, zones[i].name) == Existing(files, zones[i].name);
        }
      }
    }
  }

  /** A run that stops does so on a zone whose previous file has no
      readable serial. */
  lemma {:induction false} BuildAllStops(files: map<string, string>, zones: seq<Zone>)
    requires DistinctNames(zones)
    requires BuildAll(files, zones).err.Some?
    decreases |zones|
    ensures exists i :: 0 <= i < |zones| &&
                        Regenerate(Existing(files, zones[i].name), zones[i].records) == Err(BuildAll(files, zones).err.value)
  {
    var z := zones[0];
    var o := BuildAll(files, zones);
    match Regenerate(Existing(files, z.name), z.records)
    case Err(e) =>
      assert Regenerate(Existing(files, zones[0].name), zones[0].records) == Err(o.err.value);
    case Ok(text) =>
      var next := files[z.name := text];
      BuildAllStops(next, zones[1..]);
      var i :| 0 <= i < |zones[1..]| &&
        Regenerate(Existing(next, zones[1..][i].name), zones[1..][i].records) == Err(o.err.value);
      assert zones[1..][i] == zones[i + 1];
      assert zones[0].name != zones[i + 1].name;
      assert Existing(next, zones[i + 1].name) == Existing(files, zones[i + 1].name);
  }

  /** The file of a zone not in the list keeps its contents. */
  lemma {:induction false} BuildAllKeeps(files: map<string, string>, zones: seq<Zone>, name: string)
    requires forall i :: 0 <= i < |zones| ==> zones[i].name != name
    decreases |zones|
    ensures Existing(BuildAll(files, zones).files, name) == Existing(files, name)
  {
    if zones != [] {
      match Regenerate(Existing(files, zones[0].name), zones[0].records)
      case Err(e) =>
      case Ok(text) =>
        assert forall i :: 0 <= i < |zones[1..]| ==> zones[1..][i] == zones[i + 1];
        BuildAllKeeps(files[zones[0].name := text], zones[1..], name);
    }
  }

  /** The six zones have different names, so each is built once. */
  lemma ZonesDistinct(machines: seq<MachineEntry>)
    ensures DistinctNames(Zones(machines))
  {
    ZoneNamesDistinct(AlienReverseRecords(), ReverseRecords(ReverseMachines(machines, "user")),
      ReverseRecords(ReverseMachines(machines, "service")), ReverseRecords(ReverseMachines(machines, "cluster")),
      AlienProloRecords, NormalZoneRecords(machines));
  }

  /** The six zone names differ, whatever the zones hold. */
  lemma ZoneNamesDistinct(a: seq<Record>, b: seq<Record>, c: seq<Record>, d: seq<Record>, e: seq<Record>, f: seq<Record>)
    ensures DistinctNames([Zone("250.168.192.in-addr.arpa", a), Zone("0.168.192.in-addr.arpa", b),
      Zone("1.168.192.in-addr.arpa", c), Zone("2.168.192.in-addr.arpa", d),
      Zone("prolo_alien", e), Zone("prolo_normal", f)])
  {
  }

  class ZoneDirectory {
    /** The contents of each zone's file, `/etc/named/generated_<name>.zone`,
        by zone name. */
    var files: map<string, string>

    constructor (files: map<string, string>)
      ensures this.files == files
    {
      this.files := files;
    }

    /** `build_zone`: the zone's file is replaced by the records under a
        header with the next serial; a previous file whose serial cannot be
        read is left alone. */
    method BuildZone(name: string, records: seq<Record>) returns (err: Option<SerialError>)
      modifies this
      ensures match Regenerate(Existing(old(files), name), records)
        case Ok(text) => err.None? && files == old(files)[name := text]
        case Err(e) => err == Some(e) && files == old(files)
    {
      var existing := if name in files then Some(files[name]) else None;
      var serial := NextSerial(existing);
      if serial.Err? {
        return Some(serial.error);
      }
      files := files[name := ZoneText(serial.value, records)];
      err := None;
    }

    /** One call of `update_dns_config`: the `k`-th zone is built. */
    method BuildNext(zones: seq<Zone>, k: nat) returns (err: Option<SerialError>)
      requires k < |zones|
      modifies this
      ensures err.None? ==> BuildAll(old(files), zones[k..]) == BuildAll(files, zones[k + 1..])
      ensures err.Some? ==> BuildAll(old(files), zones[k..]) == Outcome(files, err)
    {
      err := BuildZone(zones[k].name, zones[k].records);
      assert zones[k..][0] == zones[k] && zones[k..][1..] == zones[k + 1..];
    }

    /** `update_dns_config`, corrected in its user reverse zone (see
        Zones): the six zones are built in turn, and the first that fails
        stops the update. */
    method UpdateDnsConfig(machines: seq<MachineEntry>) returns (err: Option<SerialError>)
      modifies this
      ensures Outcome(files, err) == BuildAll(old(files), Zones(machines))
    {
      var zones := Zones(machines);
      var i := 0;
      err := None;
      while i < |zones|
        invariant i <= |zones|
        invariant err.None?
        invariant BuildAll(old(files), zones) == BuildAll(files, zones[i..])
      {
        err := BuildNext(zones, i);
        if err.Some? {
          return;
        }
        i := i + 1;
      }
      assert zones[i..] == [];
    }
  }
}
