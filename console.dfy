/**
 * The console-output handler of the Xen node controller. A caller that is
 * not root gets the encoding of "NOT SUPPORTED" and no process is started.
 * Otherwise a child process writes the domain's console into a scratch
 * file; the parent polls a bounded number of times for the file, reads it
 * a bounded number of times into a zeroed 64 KiB buffer, kills and reaps
 * the child, removes the file, substitutes "EMPTY" for an empty capture and
 * encodes the C string left in the buffer.
 *
 * The process and file operations are parameters: the pid fork() returns
 * to the parent, whether each stat() of the scratch file succeeds, whether
 * the file opens, and what each read() returns. The encoder is a parameter
 * too.
 */
module Console {
  import opened NcTypes

  const BufSize: nat := 1024 * 64
  const PollCap: nat := 10000
  const ReadCap: nat := 1000
  const Nul: char := '\0'

  /** One read() of the scratch file: a failure (-1), or the bytes read,
      where no bytes at all is the end of the file (0). */
  datatype ReadOutcome = ReadFailed | Got(bytes: seq<char>)

  /** What the handler observes of the world. */
  datatype ConsoleEnv = ConsoleEnv(
    isRoot: bool,
    forkPid: int,
    statOk: nat -> bool,
    openOk: bool,
    chunks: nat -> ReadOutcome)

  /** A buffer of BufSize NUL characters, as bzero leaves it. */
  function Zeros(): (z: seq<char>)
    ensures |z| == BufSize && forall i :: 0 <= i < BufSize ==> z[i] == Nul
  {
    seq(BufSize, _ => Nul)
  }

  /** The C string a buffer holds: its characters up to the first NUL. */
  function CStr(s: seq<char>): (r: seq<char>)
    ensures r <= s
    ensures Nul !in r
    ensures |r| < |s| ==> s[|r|] == Nul
  {
    if s == [] || s[0] == Nul then [] else [s[0]] + CStr(s[1..])
  }

  /** The buffer after one read() into its start. */
  function Overlay(buf: seq<char>, r: ReadOutcome): (b: seq<char>)
    ensures |b| == |buf|
  {
    match r
    case ReadFailed => buf
    case Got(bytes) => if |bytes| <= |buf| then bytes + buf[|bytes|..] else buf
  }

  /** The buffer after the first `n` reads, each into the buffer's start. */
  function AfterReads(buf: seq<char>, chunks: nat -> ReadOutcome, n: nat): (b: seq<char>)
    ensures |b| == |buf|
  {
    if n == 0 then buf else Overlay(AfterReads(buf, chunks, n - 1), chunks(n - 1))
  }

  /** Reads that never deliver more than all but the last character of the
      buffer leave that last character as it was: a zeroed buffer stays
      NUL-terminated however many reads land in it. */
  lemma {:induction false} AfterReadsKeepsLast(buf: seq<char>, chunks: nat -> ReadOutcome, n: nat)
    requires |buf| > 0
    requires forall k :: chunks(k).Got? ==> |chunks(k).bytes| < |buf|
    ensures AfterReads(buf, chunks, n)[|buf| - 1] == buf[|buf| - 1]
  {
    if n > 0 {
      AfterReadsKeepsLast(buf, chunks, n - 1);
    }
  }

  /** The C string of a buffer is everything before its first NUL. */
  lemma {:induction false} CStrIsFirstNul(s: seq<char>, k: nat)
    requires k < |s| && s[k] == Nul
    requires forall i :: 0 <= i < k ==> s[i] != Nul
    ensures CStr(s) == s[..k]
  {
    if k > 0 {
      CStrIsFirstNul(s[1..], k - 1);
      assert s[..k] == [s[0]] + s[1..][..k - 1];
    }
  }

  /** The corrected signal target: only a child that exists is killed, so
      a failed fork() (-1) signals nobody. */
  function KillTarget(forkPid: int): (t: Option<int>)
    ensures t.Some? <==> forkPid > 0
    ensures t.Some? ==> t.value == forkPid
  {
    if forkPid > 0 then Some(forkPid) else None
  }

  /** The poll for the scratch file: stops at the first successful stat()
      and never runs more than PollCap failed ones. */
  method PollForFile(statOk: nat -> bool) returns (polls: nat)
    ensures polls <= PollCap
    ensures forall j :: 0 <= j < polls ==> !statOk(j)
    ensures polls < PollCap ==> statOk(polls)
  {
    polls := 0;
    while polls < PollCap && !statOk(polls)
      invariant polls <= PollCap
      invariant forall j :: 0 <= j < polls ==> !statOk(j)
    {
      polls := polls + 1;
    }
  }

  /** The read loop: reads into the start of the buffer, at most BufSize-1
      characters a time, until a read returns 0 or ReadCap reads were made.
      A failed read does not end the loop. */
  method ReadCapture(output: array<char>, chunks: nat -> ReadOutcome) returns (calls: nat)
    requires output.Length == BufSize
    requires forall k :: chunks(k).Got? ==> |chunks(k).bytes| <= BufSize - 1
    modifies output
    ensures 1 <= calls <= ReadCap
    ensures forall j :: 0 <= j < calls - 1 ==> chunks(j) != Got([])
    ensures calls < ReadCap ==> chunks(calls - 1) == Got([])
    ensures output[..] == AfterReads(old(output[..]), chunks, calls)
  {
    var rc := 1;
    calls := 0;
    while rc != 0 && calls < ReadCap
      invariant 0 <= calls <= ReadCap
      invariant rc == 0 <==> calls > 0 && chunks(calls - 1) == Got([])
      invariant forall j :: 0 <= j < calls - 1 ==> chunks(j) != Got([])
      invariant output[..] == AfterReads(old(output[..]), chunks, calls)
      decreases ReadCap - calls
    {
      ghost var before := output[..];
      match chunks(calls) {
        case ReadFailed =>
          rc := -1;
        case Got(bytes) =>
          forall i | 0 <= i < |bytes| {
            output[i] := bytes[i];
          }
          assert output[..] == bytes + before[|bytes|..];
          rc := |bytes|;
      }
      calls := calls + 1;
    }
  }

  /** Opens the scratch file and, when it opens, zeroes the buffer again
      and runs the read loop; a file that does not open is not read. */
  method Capture(output: array<char>, openOk: bool, chunks: nat -> ReadOutcome)
    returns (readCalls: nat)
    requires output.Length == BufSize && output[..] == Zeros()
    requires forall k :: chunks(k).Got? ==> |chunks(k).bytes| <= BufSize - 1
    modifies output
    ensures !openOk ==> readCalls == 0
    ensures openOk ==>
              && 1 <= readCalls <= ReadCap
              && (forall j :: 0 <= j < readCalls - 1 ==> chunks(j) != Got([]))
              && (readCalls < ReadCap ==> chunks(readCalls - 1) == Got([]))
    ensures output[..] == AfterReads(Zeros(), chunks, readCalls)
    ensures output[BufSize - 1] == Nul
  {
    readCalls := 0;
    if openOk {
      forall i | 0 <= i < output.Length {
        output[i] := Nul;
      }
      assert output[..] == Zeros();
      readCalls := ReadCapture(output, chunks);
    }
    AfterReadsKeepsLast(Zeros(), chunks, readCalls);
  }

  /** Writes "EMPTY" and its terminating NUL over a buffer that holds the
      empty C string; a buffer with text is left as it is. */
  method MarkEmpty(output: array<char>)
    requires output.Length == BufSize && output[BufSize - 1] == Nul
    modifies output
    ensures old(output[0]) == Nul ==> CStr(output[..]) == "EMPTY"
    ensures old(output[0]) == Nul ==> output[6..] == old(output[6..])
    ensures old(output[0]) != Nul ==> output[..] == old(output[..])
    ensures output[BufSize - 1] == Nul
  {
    if output[0] == Nul {
      output[0], output[1], output[2], output[3], output[4], output[5] := 'E', 'M', 'P', 'T', 'Y', Nul;
      CStrIsFirstNul(output[..], 5);
      assert output[..][..5] == "EMPTY";
    }
  }

  /** What the parent side of a root call observes and hands to the
      encoder: at most PollCap failed stat() calls, ending at the first
      success; no read when the file does not open, otherwise reads up to
      the first one returning 0, at most ReadCap of them; and as payload the
      C string the reads left in the zeroed buffer, or "EMPTY" when that
      string is empty. */
  ghost predicate ParentCaptured(env: ConsoleEnv, payload: seq<char>, polls: nat, readCalls: nat)
  {
    && polls <= PollCap && readCalls <= ReadCap
    && (forall j :: 0 <= j < polls ==> !env.statOk(j))
    && (polls < PollCap ==> env.statOk(polls))
    && (!env.openOk ==> readCalls == 0)
    && (env.openOk ==>
          && 1 <= readCalls
          && (forall j :: 0 <= j < readCalls - 1 ==> env.chunks(j) != Got([]))
          && (readCalls < ReadCap ==> env.chunks(readCalls - 1) == Got([])))
    && (var captured := AfterReads(Zeros(), env.chunks, readCalls);
        && (captured[0] == Nul ==> payload == "EMPTY")
        && (captured[0] != Nul ==> payload == CStr(captured)))
  }

  /** The console-output handler as written. `payload` is the text handed
      to the encoder and `encoded` its encoding; `forked` says whether
      fork() was called, `killed` whom the parent then signals with
      kill(pid, 9), `polls` and `readCalls` how many stat() failures and
      read() calls there were. Every nonzero pid fork() returns takes the
      parent branch, so a failed fork() (-1) is signalled as if it were the
      child. */
  method GetConsoleOutput(env: ConsoleEnv, encode: seq<char> -> seq<char>)
    returns (encoded: seq<char>, payload: seq<char>, forked: bool, killed: Option<int>,
             polls: nat, readCalls: nat)
    requires env.forkPid > 0 || env.forkPid == -1
    requires forall k :: env.chunks(k).Got? ==> |env.chunks(k).bytes| <= BufSize - 1
    ensures encoded == encode(payload)
    ensures payload != [] && Nul !in payload && |payload| < BufSize
    ensures !env.isRoot ==> payload == "NOT SUPPORTED" && !forked && killed == None
                            && polls == 0 && readCalls == 0
    ensures env.isRoot ==> forked && killed == Some(env.forkPid)
    ensures env.isRoot ==> ParentCaptured(env, payload, polls, readCalls)
  {
    if !env.isRoot {
      payload := "NOT SUPPORTED";
      encoded := encode(payload);
      return encoded, payload, false, None, 0, 0;
    }

    var output := new char[BufSize](_ => Nul);
    forked := true;
    polls := PollForFile(env.statOk);
    readCalls := Capture(output, env.openOk, env.chunks);
    killed := Some(env.forkPid);
    MarkEmpty(output);
    payload := CStr(output[..]);
    encoded := encode(payload);
  }

  /** A root call whose fork() fails ends, as written, in kill(-1, 9),
      which signals every process the controller may signal; the corrected
      handler signals nobody. */
  method ForkFailureSignalsEveryone(env: ConsoleEnv, encode: seq<char> -> seq<char>)
    returns (asWritten: Option<int>, corrected: Option<int>)
    requires env.isRoot && env.forkPid == -1
    requires forall k :: env.chunks(k).Got? ==> |env.chunks(k).bytes| <= BufSize - 1
    ensures asWritten == Some(-1)
    ensures corrected == None
  {
    var encoded, payload, forked, polls, readCalls;
    encoded, payload, forked, asWritten, polls, readCalls := GetConsoleOutput(env, encode);
    encoded, payload, forked, corrected, polls, readCalls := GetConsoleOutputCorrected(env, encode);
  }

  /** The console-output handler with the kill corrected: the parent
      signals only a child that was created. Everything else is as in
      GetConsoleOutput. */
  method GetConsoleOutputCorrected(env: ConsoleEnv, encode: seq<char> -> seq<char>)
    returns (encoded: seq<char>, payload: seq<char>, forked: bool, killed: Option<int>,
             polls: nat, readCalls: nat)
    requires env.forkPid > 0 || env.forkPid == -1
    requires forall k :: env.chunks(k).Got? ==> |env.chunks(k).bytes| <= BufSize - 1
    ensures encoded == encode(payload)
    ensures payload != [] && Nul !in payload && |payload| < BufSize
    ensures !env.isRoot ==> payload == "NOT SUPPORTED" && !forked && killed == None
                            && polls == 0 && readCalls == 0
    ensures env.isRoot ==> forked && killed == KillTarget(env.forkPid)
    ensures env.isRoot ==> ParentCaptured(env, payload, polls, readCalls)
  {
    if !env.isRoot {
      payload := "NOT SUPPORTED";
      encoded := encode(payload);
      return encoded, payload, false, None, 0, 0;
    }

    var output := new char[BufSize](_ => Nul);
    forked := true;
    polls := PollForFile(env.statOk);
    readCalls := Capture(output, env.openOk, env.chunks);
    killed := KillTarget(env.forkPid);
    MarkEmpty(output);
    payload := CStr(output[..]);
    encoded := encode(payload);
  }
}
