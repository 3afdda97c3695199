/** The output capture of python-lib/prologin/workernode/tools.py: a child
    process's standard output is read in chunks of at most 4096 bytes, up to
    an optional limit, and a truncation message is appended when the limit
    was reached. The process is a `Pipe` holding the bytes it has yet to
    deliver. */
module Tools {
  import opened Common

  type Byte = b: int | 0 <= b < 256
  type Bytes = seq<Byte>

  function Min(a: int, b: int): int { if a <= b then a else b }

  /** The standard output of a child process, as an asyncio stream sees
      it: the bytes not read yet. A read of `n` bytes returns at most
      `burst` of them at once. */
  class Pipe {
    var rest: Bytes
    const burst: nat
    const exitCode: int

    constructor (output: Bytes, burst: nat, exitCode: int)
      ensures rest == output && this.burst == burst && this.exitCode == exitCode
    {
      rest := output;
      this.burst := burst;
      this.exitCode := exitCode;
    }

    /** `proc.stdout.read(n)`: a negative `n` reads up to the end of the
        stream; otherwise at most `n` bytes, and none only at the end of
        the stream or when `n` is 0. */
    method Read(n: int) returns (chunk: Bytes)
      modifies this`rest
      ensures old(rest) == chunk + rest
      ensures n < 0 ==> chunk == old(rest)
      ensures n >= 0 ==> |chunk| == Min(Min(n, burst), |old(rest)|)
    {
      var k := if n < 0 then |rest| else Min(Min(n, burst), |rest|);
      chunk := rest[..k];
      rest := rest[k..];
    }
  }

  /** Whether the limit was reached: a non-negative limit no larger than
      the whole output. */
  predicate Truncated(output: Bytes, maxLen: Option<int>)
  {
    maxLen.Some? && 0 <= maxLen.value <= |output|
  }

  /** What `communicate_process` returns as stdout for a process whose
      whole output is `output`. */
  function Communicated(output: Bytes, maxLen: Option<int>, truncateMessage: Bytes): (r: Bytes)
    ensures Truncated(output, maxLen) ==> r == output[..maxLen.value] + truncateMessage
    ensures !Truncated(output, maxLen) ==> r == output
    ensures maxLen.Some? && maxLen.value >= 0 ==> |r| <= maxLen.value + |truncateMessage|
    ensures maxLen == Some(0) ==> r == truncateMessage
  {
    if Truncated(output, maxLen) then output[..maxLen.value] + truncateMessage else output
  }

  /** `communicate_process` (the standard input part is not modelled):
      reads until the end of the stream or until `maxLen` bytes are held,
      never holding more than `maxLen`, then appends the truncation
      message if the limit was reached. The unread bytes stay in the
      pipe. */
  method CommunicateProcess(proc: Pipe, maxLen: Option<int>, truncateMessage: Bytes)
    returns (exitCode: int, stdout: Bytes)
    requires proc.burst > 0
    modifies proc`rest
    ensures stdout == Communicated(old(proc.rest), maxLen, truncateMessage)
    ensures Truncated(old(proc.rest), maxLen) ==> proc.rest == old(proc.rest)[maxLen.value..]
    ensures !Truncated(old(proc.rest), maxLen) ==> proc.rest == []
    ensures exitCode == proc.exitCode
  {
    stdout := [];
    var toRead := 4096;
    while true
      invariant old(proc.rest) == stdout + proc.rest
      invariant maxLen.Some? && maxLen.value >= 0 ==> |stdout| <= maxLen.value
      invariant maxLen.Some? && maxLen.value < 0 && stdout != [] ==> proc.rest == []
      decreases |proc.rest|
    {
      toRead := 4096;
      if maxLen.Some? {
        toRead := Min(toRead, maxLen.value - |stdout|);
        if toRead == 0 {
          break;
        }
      }
      var chunk := proc.Read(toRead);
      if chunk == [] {
        break;
      }
      stdout := stdout + chunk;
    }
    if toRead == 0 {
      stdout := stdout + truncateMessage;
    }
    exitCode := proc.exitCode;
  }

  /** `communicate` as written: the truncation message it is given is not
      passed on, an empty one is. */
  method CommunicateAsWritten(proc: Pipe, maxLen: Option<int>, truncateMessage: Bytes)
    returns (exitCode: int, stdout: Bytes)
    requires proc.burst > 0
    modifies proc`rest
    ensures stdout == Communicated(old(proc.rest), maxLen, [])
  {
    exitCode, stdout := CommunicateProcess(proc, maxLen, []);
  }

  /** `communicate` passing its truncation message on. */
  method Communicate(proc: Pipe, maxLen: Option<int>, truncateMessage: Bytes)
    returns (exitCode: int, stdout: Bytes)
    requires proc.burst > 0
    modifies proc`rest
    ensures stdout == Communicated(old(proc.rest), maxLen, truncateMessage)
  {
    exitCode, stdout := CommunicateProcess(proc, maxLen, truncateMessage);
  }

  /** With a limit of 10 bytes on a longer output and the 13-byte message
      "log truncated", the output as written is 10 bytes long, without the
      message; passing the message on gives the 23 bytes the caller
      expects. */
  lemma TruncateMessageDropped(output: Bytes, message: Bytes)
    requires |output| >= 10 && |message| == 13
    ensures |Communicated(output, Some(10), [])| == 10
    ensures |Communicated(output, Some(10), message)| == 23
  {
  }
}
