/**
 * The child-process wrapper (`ChildProcess`, dashboard_server.py:29-54) and the
 * operating-system calls the server makes: detached process creation
 * (`subprocess.Popen`) and socket closing.
 */
module Processes {
  import opened Wrappers

  type SockId = nat

  /** The arguments and working directory one `Popen` call receives (`None`: inherit the server's). */
  datatype LaunchRecord = LaunchRecord(args: seq<string>, cwd: Option<string>)

  /** One call into the operating system, in the order the server makes them. */
  datatype OsCall = Spawn(launch: LaunchRecord) | Close(sock: SockId)

  /** How many processes `trace` has started. */
  function SpawnCount(trace: seq<OsCall>): (n: nat)
    ensures n <= |trace|
    ensures n == 0 <== forall i :: 0 <= i < |trace| ==> trace[i].Close?
  {
    if trace == [] then 0
    else SpawnCount(trace[..|trace| - 1]) + (if trace[|trace| - 1].Spawn? then 1 else 0)
  }

  /** Spawns and closes in `a + b` are those of `a`, then those of `b`. */
  lemma {:induction false} SpawnCountAppend(a: seq<OsCall>, b: seq<OsCall>)
    ensures SpawnCount(a + b) == SpawnCount(a) + SpawnCount(b)
    decreases |b|
  {
    if b != [] {
      assert (a + b)[..|a + b| - 1] == a + b[..|b| - 1];
      SpawnCountAppend(a, b[..|b| - 1]);
    } else {
      assert a + b == a;
    }
  }

  /**
   * The operating system as the server sees it: the calls made so far, and
   * the process identifiers it hands out, an arbitrary function of how many
   * processes were started before.
   */
  class Os {
    const pidOf: nat -> int
    var trace: seq<OsCall>

    constructor (pidOf: nat -> int)
      ensures this.pidOf == pidOf && trace == []
    {
      this.pidOf := pidOf;
      trace := [];
    }

    /** `subprocess.Popen(creationflags=DETACHED_PROCESS, args=args, cwd=cwd).pid`. */
    method Spawn(args: seq<string>, cwd: Option<string>) returns (pid: int)
      modifies this
      ensures trace == old(trace) + [OsCall.Spawn(LaunchRecord(args, cwd))]
      ensures pid == pidOf(SpawnCount(old(trace)))
    {
      pid := pidOf(SpawnCount(trace));
      trace := trace + [OsCall.Spawn(LaunchRecord(args, cwd))];
    }

    /** `sock.close()`. */
    method Close(sock: SockId)
      modifies this
      ensures trace == old(trace) + [OsCall.Close(sock)]
    {
      trace := trace + [OsCall.Close(sock)];
    }
  }

  /**
   * The description a `ChildProcess` is given: the one passed if it is not
   * empty, otherwise the program name `args[0]`, otherwise `"INVALID"`.
   */
  function DescriptionOf(description: string, args: seq<string>): (d: string)
    ensures description != "" ==> d == description
    ensures description == "" && |args| > 0 ==> d == args[0]
    ensures description == "" && args == [] ==> d == "INVALID"
    ensures d == "" <==> description == "" && |args| > 0 && args[0] == ""
  {
    if description != "" then description
    else if |args| > 0 then args[0]
    else "INVALID"
  }

  /** A configured command: what to start, where, and its pid once started. */
  class ChildProcess {
    const args: seq<string>
    const cwd: Option<string>
    const description: string
    var pid: int

    constructor (description: string := "", args: seq<string> := [], cwd: Option<string> := Some("."))
      ensures this.args == args && this.cwd == cwd
      ensures this.description == DescriptionOf(description, args)
      ensures pid == 0
    {
      this.args := args;
      this.cwd := cwd;
      this.description := DescriptionOf(description, args);
      pid := 0;
    }

    /** The `Popen` call `StartDetached` makes. */
    function Launch(): LaunchRecord {
      LaunchRecord(args, cwd)
    }

    /** Starts the program detached and remembers the pid the system gave it. */
    method StartDetached(os: Os) returns (r: int)
      modifies this, os
      ensures os.trace == old(os.trace) + [Spawn(Launch())]
      ensures r == pid && pid == os.pidOf(SpawnCount(old(os.trace)))
    {
      var p := os.Spawn(args, cwd);
      pid := p;
      r := pid;
    }
  }
}
