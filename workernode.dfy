/** The worker node of python-lib/prologin/workernode/worker.py: its slot
    accounting around jobs, the rotation of the ports it hands out to match
    servers, and the parsing of the scores a match server prints. */
module WorkerNode {
  import opened Common

  /** The port after `port`: the next one, back to `lo` past `hi`. */
  function NextPort(port: int, lo: int, hi: int): (r: int)
    ensures r == port + 1 || r == lo
  {
    if port + 1 > hi then lo else port + 1
  }

  /** The `n` ports handed out one after the other from `port` on. */
  function Ports(port: int, lo: int, hi: int, n: nat): (r: seq<int>)
    ensures |r| == n
    ensures n > 0 ==> r[0] == port
    decreases n
  {
    if n == 0 then [] else [port] + Ports(NextPort(port, lo, hi), lo, hi, n - 1)
  }

  /** The port to hand out after `n` of them from `port` on. */
  function After(port: int, lo: int, hi: int, n: nat): int
    decreases n
  {
    if n == 0 then port else After(NextPort(port, lo, hi), lo, hi, n - 1)
  }

  /** The k-th port handed out is the one reached after k steps. */
  lemma {:induction false} PortsAfter(port: int, lo: int, hi: int, n: nat, k: nat)
    requires k < n
    ensures Ports(port, lo, hi, n)[k] == After(port, lo, hi, k)
    decreases k
  {
    if k > 0 {
      PortsAfter(NextPort(port, lo, hi), lo, hi, n - 1, k - 1);
    }
  }

  /** Taking i steps and then d more is taking i + d steps. */
  lemma {:induction false} AfterAdd(port: int, lo: int, hi: int, i: nat, d: nat)
    ensures After(port, lo, hi, i + d) == After(After(port, lo, hi, i), lo, hi, d)
    decreases i
  {
    if i > 0 {
      AfterAdd(NextPort(port, lo, hi), lo, hi, i - 1, d);
    }
  }

  /** From inside the range, every step stays inside it. */
  lemma {:induction false} AfterInRange(port: int, lo: int, hi: int, n: nat)
    requires lo <= port <= hi
    ensures lo <= After(port, lo, hi, n) <= hi
    decreases n
  {
    if n > 0 {
      AfterInRange(NextPort(port, lo, hi), lo, hi, n - 1);
    }
  }

  /** Fewer steps than the range holds ports wrap around at most once. */
  lemma {:induction false} AfterShort(port: int, lo: int, hi: int, d: nat)
    requires lo <= port <= hi && d <= hi - lo
    ensures After(port, lo, hi, d) == if port + d <= hi then port + d else port + d - (hi - lo + 1)
    decreases d
  {
    if d > 0 {
      AfterAdd(port, lo, hi, d - 1, 1);
      AfterShort(port, lo, hi, d - 1);
    }
  }

  /** Every port handed out from inside the range is in the range, each
      follows the one before, and any `hi - lo + 1` successive ones are
      distinct. */
  lemma PortsCycle(port: int, lo: int, hi: int, n: nat)
    requires lo <= port <= hi
    ensures forall k :: 0 <= k < n ==> lo <= Ports(port, lo, hi, n)[k] <= hi
    ensures forall k :: 0 < k < n ==> Ports(port, lo, hi, n)[k] == NextPort(Ports(port, lo, hi, n)[k - 1], lo, hi)
    ensures forall i, j :: 0 <= i < j < n && j - i <= hi - lo ==> Ports(port, lo, hi, n)[i] != Ports(port, lo, hi, n)[j]
  {
    var ps := Ports(port, lo, hi, n);
    forall k | 0 <= k < n
      ensures lo <= ps[k] <= hi
    {
      PortsAfter(port, lo, hi, n, k);
      AfterInRange(port, lo, hi, k);
    }
    forall k | 0 < k < n
      ensures ps[k] == NextPort(ps[k - 1], lo, hi)
    {
      PortsAfter(port, lo, hi, n, k);
      PortsAfter(port, lo, hi, n, k - 1);
      AfterAdd(port, lo, hi, k - 1, 1);
    }
    forall i, j | 0 <= i < j < n && j - i <= hi - lo
      ensures ps[i] != ps[j]
    {
      PortsAfter(port, lo, hi, n, i);
      PortsAfter(port, lo, hi, n, j);
      AfterInRange(port, lo, hi, i);
      AfterAdd(port, lo, hi, i, j - i);
      AfterShort(ps[i], lo, hi, j - i);
    }
  }

  /** The lines of a match server's output that read "<pid> <score>":
      digits, one space, an optional minus sign, digits. */
  function ScoreLine(line: string): (r: Option<(nat, int)>)
  {
    if ' ' !in line then None
    else
      var k := Find(line, ' ');
      ScoreOf(line[..k], line[k + 1..])
  }

  /** The pair read from the text before and after the space. */
  function ScoreOf(pid: string, score: string): (r: Option<(nat, int)>)
  {
    if |pid| >= 1 && AllDigits(pid) && |score| >= 1 && AllDigits(score) then
      Some((DigitsValue(pid), DigitsValue(score)))
    else if |pid| >= 1 && AllDigits(pid) && |score| >= 2 && score[0] == '-' && AllDigits(score[1..]) then
      var v: (nat, int) := (DigitsValue(pid), -(DigitsValue(score[1..]) as int));
      Some(v)
    else None
  }

  /** A signed number as the pattern `-?\d+` reads it. */
  predicate IsScore(s: string)
  {
    (|s| >= 1 && AllDigits(s)) || (|s| >= 2 && s[0] == '-' && AllDigits(s[1..]))
  }

  /** A line is kept exactly when it is digits, a space and a signed
      number. */
  lemma ScoreLineShape(line: string)
    ensures ScoreLine(line).Some? <==>
      exists k :: 0 < k < |line| && line[k] == ' ' && AllDigits(line[..k]) && IsScore(line[k + 1..])
  {
    if k :| 0 < k < |line| && line[k] == ' ' && AllDigits(line[..k]) && IsScore(line[k + 1..]) {
      var f := Find(line, ' ');
      assert line[..k][..f] == line[..f];
    }
  }

  /** The line a match server prints for one player. */
  function Render(result: (nat, int)): string
  {
    NatToString(result.0) + " " + IntToString(result.1)
  }

  lemma NoSpaceInDigits(p: string)
    requires AllDigits(p)
    ensures ' ' !in p && '\n' !in p
  {
    forall i | 0 <= i < |p| ensures p[i] != ' ' && p[i] != '\n' {
      assert IsDigit(p[i]);
    }
  }

  /** What the server prints for a player is read back. */
  lemma ScoreLineOf(result: (nat, int))
    ensures ScoreLine(Render(result)) == Some(result)
  {
    var p := NatToString(result.0);
    var q := IntToString(result.1);
    NoSpaceInDigits(p);
    FindAfter(p, q, ' ');
    var line := p + " " + q;
    assert line[..|p|] == p && line[|p| + 1..] == q;
    ScoreOfRender(result);
  }

  lemma ScoreOfRender(result: (nat, int))
    ensures ScoreOf(NatToString(result.0), IntToString(result.1)) == Some(result)
  {
    if result.1 < 0 {
      assert IntToString(result.1)[1..] == NatToString(-result.1);
    }
  }

  /** The (pid, score) pairs of the lines that are score lines, in order. */
  function Scores(lines: seq<string>): (r: seq<(nat, int)>)
    ensures |r| <= |lines|
  {
    if lines == [] then []
    else
      var init := Scores(lines[..|lines| - 1]);
      match ScoreLine(lines[|lines| - 1])
      case Some(p) => init + [p]
      case None => init
  }

  /** The lines a server prints for its results. */
  function ScoreLines(results: seq<(nat, int)>): (r: seq<string>)
    ensures |r| == |results| && forall i :: 0 <= i < |r| ==> r[i] == Render(results[i])
  {
    seq(|results|, i requires 0 <= i < |results| => Render(results[i]))
  }

  /** The results printed one per line are read back in order. */
  lemma {:induction false} ScoresOfScoreLines(results: seq<(nat, int)>)
    ensures Scores(ScoreLines(results)) == results
    decreases |results|
  {
    if results != [] {
      var init := results[..|results| - 1];
      var last := results[|results| - 1];
      var lines := ScoreLines(results);
      assert lines[..|lines| - 1] == ScoreLines(init);
      ScoreLineOf(last);
      assert ScoreLine(lines[|lines| - 1]) == Some(last);
      ScoresOfScoreLines(init);
      assert Scores(lines) == init + [last];
      SeqSnoc(results);
    }
  }

  lemma ScoresSkips(lines: seq<string>, line: string)
    requires ScoreLine(line).None?
    ensures Scores(lines + [line]) == Scores(lines)
  {
    assert (lines + [line])[..|lines|] == lines;
  }

  /** A guarded job of the worker: its slots are taken when it starts and
      given back when it ends. */
  class Worker {
    var slots: int
    const maxSlots: int
    /** The slots taken by the jobs running now. */
    ghost var busy: int
    var srvPort: int
    const minSrvPort: int
    const maxSrvPort: int

    ghost predicate Valid()
      reads this
    {
      0 <= slots && 0 <= busy && slots + busy == maxSlots
    }

    /** The worker starts with all its slots free and its first port. */
    constructor (availableSlots: nat, portRangeStart: int, portRangeEnd: int)
      ensures Valid() && slots == maxSlots == availableSlots
      ensures srvPort == minSrvPort == portRangeStart && maxSrvPort == portRangeEnd
    {
      slots := availableSlots;
      maxSlots := availableSlots;
      busy := 0;
      minSrvPort := portRangeStart;
      maxSrvPort := portRangeEnd;
      srvPort := portRangeStart;
    }

    /** The guard of `async_work`: with fewer free slots than the job needs
        nothing happens; otherwise the job takes them. */
    method StartJob(required: nat) returns (started: bool)
      requires Valid()
      modifies this`slots, this`busy
      ensures Valid()
      ensures started <==> old(slots) >= required
      ensures slots == (if started then old(slots) - required else old(slots))
      ensures busy == (if started then old(busy) + required else old(busy))
    {
      if slots < required {
        return false;
      }
      slots := slots - required;
      busy := busy + required;
      started := true;
    }

    /** The `finally` of `async_work`: the job's slots are given back,
        whether it ended normally or not. */
    method EndJob(required: nat)
      requires Valid() && busy >= required
      modifies this`slots, this`busy
      ensures Valid()
      ensures slots == old(slots) + required && busy == old(busy) - required
    {
      slots := slots + required;
      busy := busy - required;
    }

    /** A whole job of `async_work`, with no other job in between: the call
        answers the number of slots the job needs at once; the slot count
        ends where it began, and the job ran exactly when enough slots were
        free. */
    method AsyncWork(required: nat) returns (reported: nat, ran: bool)
      requires Valid()
      modifies this`slots, this`busy
      ensures Valid() && slots == old(slots) && busy == old(busy)
      ensures reported == required
      ensures ran <==> old(slots) >= required
    {
      ran := StartJob(required);
      if ran {
        EndJob(required);
      }
      reported := required;
    }

    /** `available_server_port`: the current port, then the next one,
        wrapping to the start of the range past its end. */
    method AvailableServerPort() returns (port: int)
      modifies this`srvPort
      ensures port == old(srvPort) && srvPort == NextPort(old(srvPort), minSrvPort, maxSrvPort)
    {
      port := srvPort;
      srvPort := srvPort + 1;
      if srvPort > maxSrvPort {
        srvPort := minSrvPort;
      }
    }

    /** `get_ports`: `n` successive ports (none when `n` is not positive). */
    method GetPorts(n: int) returns (l: seq<int>)
      modifies this`srvPort
      ensures n <= 0 ==> l == [] && srvPort == old(srvPort)
      ensures n > 0 ==> l == Ports(old(srvPort), minSrvPort, maxSrvPort, n) && srvPort == After(old(srvPort), minSrvPort, maxSrvPort, n)
    {
      l := [];
      var i := 0;
      while i < n
        invariant 0 <= i && (n > 0 ==> i <= n) && (n <= 0 ==> i == 0)
        invariant l + Ports(srvPort, minSrvPort, maxSrvPort, if n > 0 then n - i else 0) == Ports(old(srvPort), minSrvPort, maxSrvPort, if n > 0 then n else 0)
        invariant After(srvPort, minSrvPort, maxSrvPort, if n > 0 then n - i else 0) == After(old(srvPort), minSrvPort, maxSrvPort, if n > 0 then n else 0)
      {
        var p := AvailableServerPort();
        l := l + [p];
        i := i + 1;
      }
    }
  }

  /** The scores of a match, as `run_server` reads them from the server's
      output. */
  method ParseScores(serverStdout: string) returns (result: seq<(nat, int)>)
    ensures result == Scores(Split(serverStdout, '\n'))
  {
    var lines := Split(serverStdout, '\n');
    result := [];
    var i := 0;
    while i < |lines|
      invariant 0 <= i <= |lines|
      invariant result == Scores(lines[..i])
    {
      assert lines[..i + 1][..i] == lines[..i];
      var m := ScoreLine(lines[i]);
      if m.Some? {
        result := result + [m.value];
      }
      i := i + 1;
    }
    assert lines[..i] == lines;
  }

  /** The server output made of the score lines alone is read back to the
      scores it prints. */
  lemma ParseScoresOfOutput(results: seq<(nat, int)>)
    requires results != []
    ensures Scores(Split(Join(ScoreLines(results), '\n'), '\n')) == results
  {
    var lines := ScoreLines(results);
    forall i | 0 <= i < |lines| ensures '\n' !in lines[i] {
      ScoreLineNoNewline(results[i]);
    }
    SplitJoin(lines, '\n');
    ScoresOfScoreLines(results);
  }

  lemma ScoreLineNoNewline(result: (nat, int))
    ensures '\n' !in Render(result)
  {
    NoSpaceInDigits(NatToString(result.0));
    NoSpaceInDigits(NatToString(if result.1 < 0 then -result.1 else result.1));
  }
}
