/**
 * The server's main loop (dashboard_server.py:146-147, 183-258): the
 * connection set, the interrupt and touch-reload flags, dispatching received
 * tokens to the registry, and the final teardown and relaunch.
 */
module DashboardServer {
  import opened Wrappers
  import opened Ascii
  import opened Tokenizer
  import opened Processes
  import opened Registry
  import opened Connections
  import opened LoopControl

  /** The tokens one readiness event dispatches: those `tokenize` finds in a non-empty chunk. */
  function EventTokens(tokenize: seq<byte> -> seq<string>, e: Readiness): seq<string> {
    if e.Received? && e.data != [] then tokenize(e.data) else []
  }

  /** The system calls one readiness event causes: a close at end of stream or on error, else the launches of its tokens. */
  function EventCalls(tokenize: seq<byte> -> seq<string>, specs: map<Key, LaunchRecord>, e: Readiness): seq<OsCall> {
    match e
    case Incoming(_, _) => []
    case Received(sock, data) => if data == [] then [Close(sock)] else Launches(specs, tokenize(data))
    case RecvFailed(sock) => [Close(sock)]
  }

  /** The concatenation of `f` over `s`, in order. */
  function FlatMap<T, U>(f: T -> seq<U>, s: seq<T>): seq<U>
    decreases |s|
  {
    if s == [] then [] else FlatMap(f, s[..|s| - 1]) + f(s[|s| - 1])
  }

  /** `FlatMap` distributes over concatenation. */
  lemma {:induction false} FlatMapAppend<T, U>(f: T -> seq<U>, a: seq<T>, b: seq<T>)
    ensures FlatMap(f, a + b) == FlatMap(f, a) + FlatMap(f, b)
    decreases |b|
  {
    if b == [] {
      assert a + b == a;
    } else {
      var n := |b| - 1;
      assert (a + b)[..|a + b| - 1] == a + b[..n];
      FlatMapAppend(f, a, b[..n]);
    }
  }

  /** The tokens dispatched while `ready` is handled, in order. */
  function ReadyTokens(tokenize: seq<byte> -> seq<string>, ready: seq<Readiness>): seq<string> {
    FlatMap(e => EventTokens(tokenize, e), ready)
  }

  /** The system calls made while `ready` is handled, in order. */
  function ReadyCalls(tokenize: seq<byte> -> seq<string>, specs: map<Key, LaunchRecord>, ready: seq<Readiness>): seq<OsCall> {
    FlatMap(e => EventCalls(tokenize, specs, e), ready)
  }

  /** All of `select`'s reports of the iterations are read-branch events on client sockets only. */
  predicate AllFromSelect(iters: seq<Iteration>, listener: SockId) {
    forall k :: 0 <= k < |iters| ==> FromSelect(iters[k].ready, listener)
  }

  /** The readiness events of iterations `[0, n)`, in order. */
  function ReadyUpTo(iters: seq<Iteration>, n: nat): seq<Readiness>
    requires n <= |iters|
  {
    if n == 0 then [] else ReadyUpTo(iters, n - 1) + iters[n - 1].ready
  }

  /** Every event `ReadyUpTo` gathers was reported by `select`. */
  lemma {:induction false} ReadyUpToFromSelect(iters: seq<Iteration>, n: nat, listener: SockId)
    requires n <= |iters| && AllFromSelect(iters, listener)
    ensures FromSelect(ReadyUpTo(iters, n), listener)
  {
    if n > 0 {
      ReadyUpToFromSelect(iters, n - 1, listener);
      var prev := ReadyUpTo(iters, n - 1);
      var r := ReadyUpTo(iters, n);
      assert forall i :: 0 <= i < |r| ==> r[i] == if i < |prev| then prev[i] else iters[n - 1].ready[i - |prev|];
    }
  }

  /** How many iterations handled their events before `stop`. */
  function Processed(iters: seq<Iteration>, stop: Stop): nat {
    if stop.Running? then |iters| else stop.at
  }

  /**
   * The pids of the registry's processes once `tokens` are dispatched, when
   * they held `pids` and `base` processes had been started before: each
   * launched process holds the pid of its last launch.
   */
  function PidsAfter(specs: map<Key, LaunchRecord>, pidOf: nat -> int, base: nat, tokens: seq<string>, pids: map<Key, int>): (r: map<Key, int>)
    ensures specs.Keys <= pids.Keys ==> r.Keys == pids.Keys
    decreases |tokens|
  {
    if tokens == [] then pids
    else
      var prefix := tokens[..|tokens| - 1];
      var key := Some(tokens[|tokens| - 1]);
      var prev := PidsAfter(specs, pidOf, base, prefix, pids);
      if key in specs then prev[key := pidOf(base + |Launches(specs, prefix)|)] else prev
  }

  /** The pid after dispatch is the one the system gave the last launch of that token. */
  lemma {:induction false} PidsAfterLastLaunch(specs: map<Key, LaunchRecord>, pidOf: nat -> int, base: nat,
                                               tokens: seq<string>, pids: map<Key, int>, i: int)
    requires 0 <= i < |tokens| && Some(tokens[i]) in specs
    requires forall j :: i < j < |tokens| ==> tokens[j] != tokens[i]
    ensures var r := PidsAfter(specs, pidOf, base, tokens, pids);
            Some(tokens[i]) in r && r[Some(tokens[i])] == pidOf(base + |Launches(specs, tokens[..i])|)
    decreases |tokens|
  {
    var n := |tokens| - 1;
    if i < n {
      var prefix := tokens[..n];
      assert prefix[..i] == tokens[..i] && prefix[i] == tokens[i];
      PidsAfterLastLaunch(specs, pidOf, base, prefix, pids, i);
    } else {
      assert tokens[..|tokens| - 1] == tokens[..i];
    }
  }

  /** A process none of whose tokens was dispatched keeps its pid. */
  lemma {:induction false} PidsAfterUnlaunched(specs: map<Key, LaunchRecord>, pidOf: nat -> int, base: nat,
                                               tokens: seq<string>, pids: map<Key, int>, key: Key)
    requires key in pids
    requires key !in specs || forall j :: 0 <= j < |tokens| ==> Some(tokens[j]) != key
    ensures var r := PidsAfter(specs, pidOf, base, tokens, pids);
            key in r && r[key] == pids[key]
    decreases |tokens|
  {
    if tokens != [] {
      var n := |tokens| - 1;
      assert forall j :: 0 <= j < n ==> tokens[..n][j] == tokens[j];
      PidsAfterUnlaunched(specs, pidOf, base, tokens[..n], pids, key);
    }
  }

  /** Dispatching `a` and then `b` leaves the pids that dispatching `a + b` leaves. */
  lemma {:induction false} PidsAfterAppend(specs: map<Key, LaunchRecord>, pidOf: nat -> int, base: nat,
                                           a: seq<string>, b: seq<string>, pids: map<Key, int>)
    ensures PidsAfter(specs, pidOf, base, a + b, pids)
         == PidsAfter(specs, pidOf, base + |Launches(specs, a)|, b, PidsAfter(specs, pidOf, base, a, pids))
    decreases |b|
  {
    if b == [] {
      assert a + b == a;
    } else {
      var n := |b| - 1;
      assert (a + b)[..|a + b| - 1] == a + b[..n];
      LaunchesAppend(specs, a, b[..n]);
      PidsAfterAppend(specs, pidOf, base, a, b[..n], pids);
    }
  }

  /** Dispatching only ever starts processes. */
  lemma {:induction false} SpawnCountLaunches(specs: map<Key, LaunchRecord>, tokens: seq<string>)
    ensures SpawnCount(Launches(specs, tokens)) == |Launches(specs, tokens)|
    decreases |tokens|
  {
    if tokens != [] {
      var n := |tokens| - 1;
      var t := tokens[n];
      SpawnCountLaunches(specs, tokens[..n]);
      SpawnCountAppend(Launches(specs, tokens[..n]), if Some(t) in specs then [Spawn(specs[Some(t)])] else []);
      if Some(t) in specs {
        assert [Spawn(specs[Some(t)])][..0] == [];
      }
    }
  }

  /** The processes one event starts are the launches of its tokens. */
  lemma EventSpawns(tokenize: seq<byte> -> seq<string>, specs: map<Key, LaunchRecord>, e: Readiness)
    ensures SpawnCount(EventCalls(tokenize, specs, e)) == |Launches(specs, EventTokens(tokenize, e))|
  {
    match e
    case Incoming(_, _) =>
    case Received(sock, data) =>
      if data == [] {
        assert [Close(sock)][..0] == [];
      } else {
        SpawnCountLaunches(specs, tokenize(data));
      }
    case RecvFailed(sock) =>
      assert [Close(sock)][..0] == [];
  }

  /** Handling a non-empty `ready` ends with its last event. */
  lemma ReadyLast(tokenize: seq<byte> -> seq<string>, specs: map<Key, LaunchRecord>, ready: seq<Readiness>)
    requires ready != []
    ensures ReadyTokens(tokenize, ready) == ReadyTokens(tokenize, ready[..|ready| - 1]) + EventTokens(tokenize, ready[|ready| - 1])
    ensures ReadyCalls(tokenize, specs, ready) == ReadyCalls(tokenize, specs, ready[..|ready| - 1]) + EventCalls(tokenize, specs, ready[|ready| - 1])
  {
  }

  /** The processes started while `ready` is handled are exactly the launches of its tokens. */
  lemma {:induction false} ReadySpawns(tokenize: seq<byte> -> seq<string>, specs: map<Key, LaunchRecord>, ready: seq<Readiness>)
    ensures SpawnCount(ReadyCalls(tokenize, specs, ready)) == |Launches(specs, ReadyTokens(tokenize, ready))|
    decreases |ready|
  {
    if ready != [] {
      var n := |ready| - 1;
      var e := ready[n];
      ReadyLast(tokenize, specs, ready);
      ReadySpawns(tokenize, specs, ready[..n]);
      SpawnCountAppend(ReadyCalls(tokenize, specs, ready[..n]), EventCalls(tokenize, specs, e));
      LaunchesAppend(specs, ReadyTokens(tokenize, ready[..n]), EventTokens(tokenize, e));
      EventSpawns(tokenize, specs, e);
    }
  }

  /** One more event handled, as the loop of `HandleReady` sees it. */
  lemma ReadyStep(tokenize: seq<byte> -> seq<string>, specs: map<Key, LaunchRecord>, ready: seq<Readiness>, i: nat)
    requires i < |ready|
    ensures ReadyTokens(tokenize, ready[..i + 1]) == ReadyTokens(tokenize, ready[..i]) + EventTokens(tokenize, ready[i])
    ensures ReadyCalls(tokenize, specs, ready[..i + 1]) == ReadyCalls(tokenize, specs, ready[..i]) + EventCalls(tokenize, specs, ready[i])
  {
    assert ready[..i + 1][..i] == ready[..i];
    ReadyLast(tokenize, specs, ready[..i + 1]);
  }

  /** The trace after one more event, in terms of the trace before it. */
  lemma ReadyTraceStep(tokenize: seq<byte> -> seq<string>, specs: map<Key, LaunchRecord>, trace0: seq<OsCall>, ready: seq<Readiness>, i: nat,
                       trace: seq<OsCall>, next: seq<OsCall>)
    requires i < |ready|
    requires trace == trace0 + ReadyCalls(tokenize, specs, ready[..i])
    requires next == trace + EventCalls(tokenize, specs, ready[i])
    ensures next == trace0 + ReadyCalls(tokenize, specs, ready[..i + 1])
  {
    ReadyStep(tokenize, specs, ready, i);
  }

  /** The processes started before one more event is handled. */
  lemma ReadyTraceCount(tokenize: seq<byte> -> seq<string>, specs: map<Key, LaunchRecord>, trace0: seq<OsCall>, ready: seq<Readiness>, i: nat, trace: seq<OsCall>)
    requires i <= |ready|
    requires trace == trace0 + ReadyCalls(tokenize, specs, ready[..i])
    ensures SpawnCount(trace) == SpawnCount(trace0) + |Launches(specs, ReadyTokens(tokenize, ready[..i]))|
  {
    SpawnCountAppend(trace0, ReadyCalls(tokenize, specs, ready[..i]));
    ReadySpawns(tokenize, specs, ready[..i]);
  }

  /** Dispatching `last` after `done` leaves the pids that dispatching `done + last` leaves. */
  lemma PidsAfterChain(specs: map<Key, LaunchRecord>, pidOf: nat -> int, base: nat, done: seq<string>, last: seq<string>,
                       pid0: map<Key, int>, n: nat, pids: map<Key, int>, next: map<Key, int>)
    requires pids == PidsAfter(specs, pidOf, base, done, pid0)
    requires n == base + |Launches(specs, done)|
    requires next == PidsAfter(specs, pidOf, n, last, pids)
    ensures next == PidsAfter(specs, pidOf, base, done + last, pid0)
  {
    PidsAfterAppend(specs, pidOf, base, done, last, pid0);
  }

  /** The pids after one more event, in terms of those before it. */
  lemma ReadyPidsStep(tokenize: seq<byte> -> seq<string>, specs: map<Key, LaunchRecord>, pidOf: nat -> int, trace0: seq<OsCall>, pid0: map<Key, int>,
                      ready: seq<Readiness>, i: nat, trace: seq<OsCall>, pids: map<Key, int>, next: map<Key, int>)
    requires i < |ready|
    requires trace == trace0 + ReadyCalls(tokenize, specs, ready[..i])
    requires pids == PidsAfter(specs, pidOf, SpawnCount(trace0), ReadyTokens(tokenize, ready[..i]), pid0)
    requires next == PidsAfter(specs, pidOf, SpawnCount(trace), EventTokens(tokenize, ready[i]), pids)
    ensures next == PidsAfter(specs, pidOf, SpawnCount(trace0), ReadyTokens(tokenize, ready[..i + 1]), pid0)
  {
    ReadyTraceCount(tokenize, specs, trace0, ready, i, trace);
    ReadyStep(tokenize, specs, ready, i);
    PidsAfterChain(specs, pidOf, SpawnCount(trace0), ReadyTokens(tokenize, ready[..i]), EventTokens(tokenize, ready[i]),
                   pid0, SpawnCount(trace), pids, next);
  }

  /** The connections after one more iteration of the serving loop. */
  lemma RoundConns(c0: ConnSet, listener: SockId, iters: seq<Iteration>, i: nat, conns: ConnSet, next: ConnSet)
    requires i < |iters| && WellFormed(c0, listener) && AllFromSelect(iters, listener)
    requires FromSelect(ReadyUpTo(iters, i), listener) && conns == After(c0, listener, ReadyUpTo(iters, i))
    requires next == After(conns, listener, iters[i].ready)
    ensures FromSelect(ReadyUpTo(iters, i + 1), listener)
    ensures next == After(c0, listener, ReadyUpTo(iters, i + 1))
  {
    ReadyUpToFromSelect(iters, i, listener);
    AfterAppend(c0, listener, ReadyUpTo(iters, i), iters[i].ready);
  }

  /** The trace after one more iteration of the serving loop. */
  lemma RoundTrace(tokenize: seq<byte> -> seq<string>, specs: map<Key, LaunchRecord>, trace0: seq<OsCall>, iters: seq<Iteration>, i: nat,
                   trace: seq<OsCall>, next: seq<OsCall>)
    requires i < |iters|
    requires trace == trace0 + ReadyCalls(tokenize, specs, ReadyUpTo(iters, i))
    requires next == trace + ReadyCalls(tokenize, specs, iters[i].ready)
    ensures next == trace0 + ReadyCalls(tokenize, specs, ReadyUpTo(iters, i + 1))
  {
    ReadyCallsAppend(tokenize, specs, ReadyUpTo(iters, i), iters[i].ready);
  }

  /** The pids after one more iteration of the serving loop. */
  lemma RoundPids(tokenize: seq<byte> -> seq<string>, specs: map<Key, LaunchRecord>, pidOf: nat -> int, trace0: seq<OsCall>, pid0: map<Key, int>,
                  iters: seq<Iteration>, i: nat, trace: seq<OsCall>, pids: map<Key, int>, next: map<Key, int>)
    requires i < |iters|
    requires trace == trace0 + ReadyCalls(tokenize, specs, ReadyUpTo(iters, i))
    requires pids == PidsAfter(specs, pidOf, SpawnCount(trace0), ReadyTokens(tokenize, ReadyUpTo(iters, i)), pid0)
    requires next == PidsAfter(specs, pidOf, SpawnCount(trace), ReadyTokens(tokenize, iters[i].ready), pids)
    ensures next == PidsAfter(specs, pidOf, SpawnCount(trace0), ReadyTokens(tokenize, ReadyUpTo(iters, i + 1)), pid0)
  {
    var done := ReadyUpTo(iters, i);
    SpawnCountAppend(trace0, ReadyCalls(tokenize, specs, done));
    ReadySpawns(tokenize, specs, done);
    ReadyTokensAppend(tokenize, done, iters[i].ready);
    PidsAfterChain(specs, pidOf, SpawnCount(trace0), ReadyTokens(tokenize, done), ReadyTokens(tokenize, iters[i].ready),
                   pid0, SpawnCount(trace), pids, next);
  }

  /** The tokens of `a + b` are those of `a`, then those of `b`. */
  lemma ReadyTokensAppend(tokenize: seq<byte> -> seq<string>, a: seq<Readiness>, b: seq<Readiness>)
    ensures ReadyTokens(tokenize, a + b) == ReadyTokens(tokenize, a) + ReadyTokens(tokenize, b)
  {
    FlatMapAppend(e => EventTokens(tokenize, e), a, b);
  }

  /** The calls of `a + b` are those of `a`, then those of `b`. */
  lemma ReadyCallsAppend(tokenize: seq<byte> -> seq<string>, specs: map<Key, LaunchRecord>, a: seq<Readiness>, b: seq<Readiness>)
    ensures ReadyCalls(tokenize, specs, a + b) == ReadyCalls(tokenize, specs, a) + ReadyCalls(tokenize, specs, b)
  {
    FlatMapAppend(e => EventCalls(tokenize, specs, e), a, b);
  }

  /** One more token dispatched adds that token's launch, if any. */
  lemma LaunchesSnoc(specs: map<Key, LaunchRecord>, done: seq<string>, t: string)
    ensures Launches(specs, done + [t]) == Launches(specs, done) + (if Some(t) in specs then [Spawn(specs[Some(t)])] else [])
  {
    assert (done + [t])[..|done|] == done;
  }

  /** One more token dispatched: only the process that token launches changes its pid. */
  lemma PidsAfterStep(specs: map<Key, LaunchRecord>, pidOf: nat -> int, base: nat, tokens: seq<string>, i: nat, pids: map<Key, int>)
    requires i < |tokens|
    ensures PidsAfter(specs, pidOf, base, tokens[..i + 1], pids)
         == if Some(tokens[i]) in specs then PidsAfter(specs, pidOf, base, tokens[..i], pids)[Some(tokens[i]) := pidOf(base + |Launches(specs, tokens[..i])|)]
            else PidsAfter(specs, pidOf, base, tokens[..i], pids)
  {
    assert tokens[..i + 1][..i] == tokens[..i];
  }

  /** The pid map after one more token, from the map before it and the count of processes started so far. */
  lemma PidsDispatched(specs: map<Key, LaunchRecord>, pidOf: nat -> int, base: nat, tokens: seq<string>, i: nat,
                       pid0: map<Key, int>, pids: map<Key, int>, n: nat, next: map<Key, int>)
    requires i < |tokens|
    requires pids == PidsAfter(specs, pidOf, base, tokens[..i], pid0)
    requires n == base + |Launches(specs, tokens[..i])|
    requires next == if Some(tokens[i]) in specs then pids[Some(tokens[i]) := pidOf(n)] else pids
    ensures next == PidsAfter(specs, pidOf, base, tokens[..i + 1], pid0)
  {
    PidsAfterStep(specs, pidOf, base, tokens, i, pid0);
  }

  /** One more token dispatched extends the trace by that token's launch. */
  lemma DispatchStep(specs: map<Key, LaunchRecord>, base: nat, trace0: seq<OsCall>,
                     tokens: seq<string>, i: nat, before: seq<OsCall>, after: seq<OsCall>)
    requires i < |tokens| && SpawnCount(trace0) == base
    requires before == trace0 + Launches(specs, tokens[..i])
    requires after == before + Launches(specs, [tokens[i]])
    ensures SpawnCount(before) == base + |Launches(specs, tokens[..i])|
    ensures after == trace0 + Launches(specs, tokens[..i + 1])
    ensures |Launches(specs, tokens[..i + 1])| == |Launches(specs, tokens[..i])| + if Some(tokens[i]) in specs then 1 else 0
  {
    var done := tokens[..i];
    assert tokens[..i + 1] == done + [tokens[i]];
    LaunchesSnoc(specs, done, tokens[i]);
    LaunchesSnoc(specs, [], tokens[i]);
    SpawnCountAppend(trace0, Launches(specs, done));
    SpawnCountLaunches(specs, done);
  }

  /** The pids of consecutive launches, numbered from `base`, extended by one more. */
  lemma PidsStep(pidOf: nat -> int, base: nat, pids: seq<int>, n: nat, pid: Option<int>)
    requires forall j :: 0 <= j < |pids| ==> pids[j] == pidOf(base + j)
    requires n == base + |pids|
    requires pid.Some? ==> pid.value == pidOf(n)
    ensures var next := pids + (if pid.Some? then [pid.value] else []);
            |next| == |pids| + (if pid.Some? then 1 else 0) && forall j :: 0 <= j < |next| ==> next[j] == pidOf(base + j)
  {
  }

  /**
   * The ASCII gate: a chunk with a byte of 128 or more starts nothing and
   * leaves the connection open with its address.
   */
  lemma NonAsciiChunkIgnored(specs: map<Key, LaunchRecord>, c: ConnSet, listener: SockId, sock: SockId, data: seq<byte>)
    requires WellFormed(c, listener) && sock != listener
    requires !IsAscii(data)
    ensures EventTokens(ChunkTokens, Received(sock, data)) == [] && EventCalls(ChunkTokens, specs, Received(sock, data)) == []
    ensures Step(c, listener, Received(sock, data)) == c
  {
  }

  /**
   * A configured token sent newline-terminated starts its process exactly
   * once; any other text starts nothing.
   */
  lemma SendToken(specs: map<Key, LaunchRecord>, t: string)
    requires IsToken(t) && IsAsciiText(t)
    ensures Some(t) in specs ==> Launches(specs, ChunkTokens(Encode(t + [Newline]))) == [Spawn(specs[Some(t)])]
    ensures Some(t) !in specs ==> Launches(specs, ChunkTokens(Encode(t + [Newline]))) == []
  {
    assert IsAsciiText(t + [Newline]);
    DecodeEncode(t + [Newline]);
    TokenLine(t);
    assert [t][..0] == [];
  }

  /** The server state of dashboard_server.py's top level. */
  class Server {
    const listener: SockId
    const registry: map<Key, ChildProcess>
    const os: Os
    const scriptFile: string   // `__file__`
    const workingDir: string   // `os.getcwd()` when the relaunch happens
    /**
     * How a received chunk becomes tokens. The constructor sets it to
     * `ChunkTokens`; the loop's contracts hold for any tokenizer.
     */
    const tokenize: seq<byte> -> seq<string>
    var socks: seq<SockId>
    var addresses: map<SockId, Address>
    var interrupted: bool
    var touched: bool

    /** The connection set, `socks` and `addresses`. */
    function Conns(): ConnSet
      reads this`socks, this`addresses
    {
      ConnSet(socks, addresses)
    }

    /** The launch each token stands for. */
    function Commands(): map<Key, LaunchRecord> {
      Specs(registry)
    }

    /** The pid each registered `ChildProcess` holds. */
    function Pids(): map<Key, int>
      reads registry.Values
    {
      map k | k in registry :: registry[k].pid
    }

    /** The connection-set invariant, and one `ChildProcess` object per token. */
    ghost predicate Valid()
      reads this`socks, this`addresses
    {
      WellFormed(Conns(), listener) && Injective(registry)
    }

    /** Startup: the registry from the configured commands, then the listening socket alone, both flags clear. */
    constructor (listener: SockId, commands: seq<Command>, cwd: Option<string>, os: Os,
                 scriptFile: string, workingDir: string)
      ensures Valid()
      ensures this.listener == listener && this.os == os
      ensures this.scriptFile == scriptFile && this.workingDir == workingDir
      ensures tokenize == ChunkTokens
      ensures Commands() == RegistrySpec(commands, cwd)
      ensures forall k :: k in registry ==> fresh(registry[k]) && registry[k].pid == 0
      ensures forall k :: k in registry ==> registry[k].description == DescriptionOf("", registry[k].args)
      ensures Conns() == Initial(listener) && !interrupted && !touched
    {
      var r := BuildRegistry(commands, cwd);
      this.listener := listener;
      registry := r;
      this.os := os;
      this.scriptFile := scriptFile;
      this.workingDir := workingDir;
      tokenize := ChunkTokens;
      socks := [listener];
      addresses := map[];
      interrupted := false;
      touched := false;
    }

    /** The listening socket was readable and `accept` returned `(sock, address)`. */
    method Accept(sock: SockId, address: Address)
      requires Valid()
      modifies this`socks, this`addresses
      ensures Valid()
      ensures Conns() == Accepted(old(Conns()), sock, address)
    {
      AcceptedWellFormed(Conns(), listener, sock, address);
      if sock !in socks {
        socks := socks + [sock];
        addresses := addresses[sock := address];
      }
    }

    /** End of stream or a `recv` error: close the socket, and forget it if it is still listed. */
    method CloseConnection(sock: SockId)
      requires Valid() && sock != listener
      modifies this`socks, this`addresses, os
      ensures Valid()
      ensures Conns() == Dropped(old(Conns()), sock)
      ensures os.trace == old(os.trace) + [Close(sock)]
    {
      DroppedWellFormed(Conns(), listener, sock);
      os.Close(sock);
      if sock in socks {
        socks := RemoveFirst(socks, sock);
        assert sock in addresses;  // so `addresses.pop(s)` cannot raise `KeyError`
        addresses := addresses - {sock};
      }
    }

    /**
     * One token of a chunk: an unregistered token is skipped, a registered
     * one starts its `ChildProcess`, whose pid is returned.
     */
    method DispatchToken(token: string) returns (pid: Option<int>)
      requires Injective(registry)
      modifies os, registry.Values
      ensures os.trace == old(os.trace) + Launches(Commands(), [token])
      ensures pid.Some? <==> Some(token) in registry
      ensures pid.Some? ==> pid.value == os.pidOf(old(SpawnCount(os.trace)))
      ensures Pids() == if Some(token) in Commands() then old(Pids())[Some(token) := os.pidOf(old(SpawnCount(os.trace)))] else old(Pids())
    {
      LaunchesSnoc(Commands(), [], token);
      if Some(token) in registry {
        var proc := registry[Some(token)];
        var p := proc.StartDetached(os);
        pid := Some(p);
      } else {
        pid := None;
      }
    }

    /**
     * Dispatch the tokens of one chunk in order. Returns the pids the
     * launches got, in order.
     */
    method Dispatch(tokens: seq<string>) returns (pids: seq<int>)
      requires Injective(registry)
      modifies os, registry.Values
      ensures os.trace == old(os.trace) + Launches(Commands(), tokens)
      ensures |pids| == |Launches(Commands(), tokens)|
      ensures forall j :: 0 <= j < |pids| ==> pids[j] == os.pidOf(old(SpawnCount(os.trace)) + j)
      ensures Pids() == PidsAfter(Commands(), os.pidOf, old(SpawnCount(os.trace)), tokens, old(Pids()))
    {
      ghost var base := SpawnCount(os.trace);
      ghost var trace0 := os.trace;
      ghost var specs := Commands();
      ghost var pid0 := Pids();
      pids := [];
      var i := 0;
      while i < |tokens|
        invariant 0 <= i <= |tokens|
        invariant os.trace == trace0 + Launches(specs, tokens[..i])
        invariant |pids| == |Launches(specs, tokens[..i])|
        invariant forall j :: 0 <= j < |pids| ==> pids[j] == os.pidOf(base + j)
        invariant Pids() == PidsAfter(specs, os.pidOf, base, tokens[..i], pid0)
      {
        var token := tokens[i];
        ghost var before := os.trace;
        ghost var held := Pids();
        var pid := DispatchToken(token);
        DispatchStep(specs, base, trace0, tokens, i, before, os.trace);
        PidsDispatched(specs, os.pidOf, base, tokens, i, pid0, held, SpawnCount(before), Pids());
        PidsStep(os.pidOf, base, pids, SpawnCount(before), pid);
        if pid.Some? {
          pids := pids + [pid.value];
        }
        i := i + 1;
      }
      assert tokens[..i] == tokens;
    }

    /** One readable socket, as the body of the `for s in readables` loop handles it. */
    method HandleEvent(e: Readiness)
      requires Valid() && (!e.Incoming? ==> e.sock != listener)
      modifies this`socks, this`addresses, os, registry.Values
      ensures Valid()
      ensures Conns() == Step(old(Conns()), listener, e)
      ensures os.trace == old(os.trace) + EventCalls(tokenize, Commands(), e)
      ensures Pids() == PidsAfter(Commands(), os.pidOf, old(SpawnCount(os.trace)), EventTokens(tokenize, e), old(Pids()))
    {
      ghost var pid0 := Pids();
      match e
      case Incoming(sock, address) =>
        Accept(sock, address);
        assert Pids() == pid0;
      case RecvFailed(sock) =>
        CloseConnection(sock);
        assert Pids() == pid0;
      case Received(sock, data) =>
        if data == [] {
          CloseConnection(sock);
          assert Pids() == pid0;
        } else {
          var _ := Dispatch(tokenize(data));
        }
    }

    /** One pass over what `select` reported. */
    method HandleReady(ready: seq<Readiness>)
      requires Valid() && FromSelect(ready, listener)
      modifies this`socks, this`addresses, os, registry.Values
      ensures Valid()
      ensures Conns() == After(old(Conns()), listener, ready)
      ensures os.trace == old(os.trace) + ReadyCalls(tokenize, Commands(), ready)
      ensures Pids() == PidsAfter(Commands(), os.pidOf, old(SpawnCount(os.trace)), ReadyTokens(tokenize, ready), old(Pids()))
    {
      ghost var base := SpawnCount(os.trace);
      ghost var trace0 := os.trace;
      ghost var conns0 := Conns();
      ghost var pid0 := Pids();
      ghost var specs := Commands();
      var i := 0;
      while i < |ready|
        invariant 0 <= i <= |ready|
        invariant Valid()
        invariant FromSelect(ready[..i], listener)
        invariant Conns() == After(conns0, listener, ready[..i])
        invariant os.trace == trace0 + ReadyCalls(tokenize, specs, ready[..i])
        invariant Pids() == PidsAfter(specs, os.pidOf, base, ReadyTokens(tokenize, ready[..i]), pid0)
      {
        var e := ready[i];
        ghost var trace := os.trace;
        ghost var pids := Pids();
        AfterStep(conns0, listener, ready, i);
        HandleEvent(e);
        ReadyTraceStep(tokenize, specs, trace0, ready, i, trace, os.trace);
        ReadyPidsStep(tokenize, specs, os.pidOf, trace0, pid0, ready, i, trace, pids, Pids());
        i := i + 1;
      }
      assert ready[..i] == ready;
    }

    /** Handles what `select` reported in iteration `i`: one step of `Run`. */
    method Advance(iters: seq<Iteration>, i: nat, ghost conns0: ConnSet, ghost trace0: seq<OsCall>,
                   ghost pid0: map<Key, int>, ghost specs: map<Key, LaunchRecord>)
      requires i < |iters| && Valid() && AllFromSelect(iters, listener) && WellFormed(conns0, listener)
      requires specs == Commands()
      requires FromSelect(ReadyUpTo(iters, i), listener)
      requires Conns() == After(conns0, listener, ReadyUpTo(iters, i))
      requires os.trace == trace0 + ReadyCalls(tokenize, specs, ReadyUpTo(iters, i))
      requires Pids() == PidsAfter(specs, os.pidOf, SpawnCount(trace0), ReadyTokens(tokenize, ReadyUpTo(iters, i)), pid0)
      modifies this`socks, this`addresses, os, registry.Values
      ensures Valid()
      ensures FromSelect(ReadyUpTo(iters, i + 1), listener)
      ensures Conns() == After(conns0, listener, ReadyUpTo(iters, i + 1))
      ensures os.trace == trace0 + ReadyCalls(tokenize, specs, ReadyUpTo(iters, i + 1))
      ensures Pids() == PidsAfter(specs, os.pidOf, SpawnCount(trace0), ReadyTokens(tokenize, ReadyUpTo(iters, i + 1)), pid0)
    {
      ghost var conns := Conns();
      ghost var trace := os.trace;
      ghost var pids := Pids();
      HandleReady(iters[i].ready);
      RoundConns(conns0, listener, iters, i, conns, Conns());
      RoundTrace(tokenize, specs, trace0, iters, i, trace, os.trace);
      RoundPids(tokenize, specs, os.pidOf, trace0, pid0, iters, i, trace, pids, Pids());
    }

    /**
     * One turn of the `while True` loop: a signal sets `interrupted`, the
     * flag leaves the loop, else the reload file sets `touched` and leaves
     * it, else what `select` reported is handled.
     */
    method Iterate(iters: seq<Iteration>, i: nat, ghost conns0: ConnSet, ghost trace0: seq<OsCall>,
                   ghost pid0: map<Key, int>, ghost specs: map<Key, LaunchRecord>) returns (stop: Stop)
      requires i < |iters| && Valid() && AllFromSelect(iters, listener) && WellFormed(conns0, listener)
      requires specs == Commands()
      requires FromSelect(ReadyUpTo(iters, i), listener)
      requires Conns() == After(conns0, listener, ReadyUpTo(iters, i))
      requires os.trace == trace0 + ReadyCalls(tokenize, specs, ReadyUpTo(iters, i))
      requires Pids() == PidsAfter(specs, os.pidOf, SpawnCount(trace0), ReadyTokens(tokenize, ReadyUpTo(iters, i)), pid0)
      modifies this, os, registry.Values
      ensures stop == if old(interrupted) || iters[i].signalled then Interrupted(i)
                      else if iters[i].reloadExists then Touched(i)
                      else Running
      ensures interrupted == (old(interrupted) || iters[i].signalled)
      ensures touched == (old(touched) || stop.Touched?)
      ensures Valid()
      ensures !stop.Running? ==> Conns() == old(Conns()) && os.trace == old(os.trace) && Pids() == old(Pids())
      ensures stop.Running? ==> FromSelect(ReadyUpTo(iters, i + 1), listener)
      ensures stop.Running? ==> Conns() == After(conns0, listener, ReadyUpTo(iters, i + 1))
      ensures stop.Running? ==> os.trace == trace0 + ReadyCalls(tokenize, specs, ReadyUpTo(iters, i + 1))
      ensures stop.Running? ==>
                Pids() == PidsAfter(specs, os.pidOf, SpawnCount(trace0), ReadyTokens(tokenize, ReadyUpTo(iters, i + 1)), pid0)
    {
      var it := iters[i];
      if it.signalled {
        interrupted := true;
      }
      if interrupted {
        stop := Interrupted(i);
      } else if it.reloadExists {
        touched := true;
        stop := Touched(i);
      } else {
        Advance(iters, i, conns0, trace0, pid0, specs);
        stop := Running;
      }
    }

    /**
     * The `while True` loop over `iters`: each iteration first notes a
     * signal, leaves on the interrupt flag, then leaves on the reload file,
     * and otherwise handles what `select` reported.
     */
    method Run(iters: seq<Iteration>) returns (stop: Stop)
      requires Valid() && AllFromSelect(iters, listener)
      modifies this, os, registry.Values
      ensures Valid()
      ensures stop == Control(iters, old(interrupted))
      ensures interrupted == (old(interrupted) || stop.Interrupted?)
      ensures touched == (old(touched) || stop.Touched?)
      ensures Processed(iters, stop) <= |iters|
      ensures FromSelect(ReadyUpTo(iters, Processed(iters, stop)), listener)
      ensures Conns() == After(old(Conns()), listener, ReadyUpTo(iters, Processed(iters, stop)))
      ensures os.trace == old(os.trace) + ReadyCalls(tokenize, Commands(), ReadyUpTo(iters, Processed(iters, stop)))
      ensures Pids() == PidsAfter(Commands(), os.pidOf, old(SpawnCount(os.trace)),
                                  ReadyTokens(tokenize, ReadyUpTo(iters, Processed(iters, stop))), old(Pids()))
    {
      ghost var trace0 := os.trace;
      ghost var conns0 := Conns();
      ghost var pid0 := Pids();
      ghost var specs := Commands();
      stop := Running;
      var i := 0;
      while i < |iters| && stop.Running?
        invariant 0 <= i <= |iters|
        invariant Valid()
        invariant stop.Running? ==> ControlFrom(iters, interrupted, i) == Control(iters, old(interrupted))
        invariant !stop.Running? ==> stop == Control(iters, old(interrupted)) && stop.at == i
        invariant interrupted == (old(interrupted) || stop.Interrupted?)
        invariant stop.Running? && i > 0 ==> !old(interrupted)
        invariant touched == (old(touched) || stop.Touched?)
        invariant FromSelect(ReadyUpTo(iters, i), listener)
        invariant Conns() == After(conns0, listener, ReadyUpTo(iters, i))
        invariant os.trace == trace0 + ReadyCalls(tokenize, specs, ReadyUpTo(iters, i))
        invariant Pids() == PidsAfter(specs, os.pidOf, SpawnCount(trace0), ReadyTokens(tokenize, ReadyUpTo(iters, i)), pid0)
        decreases |iters| - i, if stop.Running? then 1 else 0
      {
        var next := Iterate(iters, i, conns0, trace0, pid0, specs);
        if next.Running? {
          i := i + 1;
        } else {
          stop := next;
        }
      }
    }

    /** `for sock in socks: sock.close()`, then `restart_server()` when the reload file was seen. */
    method Shutdown()
      requires Valid()
      modifies os
      ensures os.trace == old(os.trace) + CloseAll(socks)
                          + (if touched then [Spawn(LaunchRecord(RelaunchArgs(scriptFile), Some(workingDir)))] else [])
    {
      var i := 0;
      while i < |socks|
        invariant 0 <= i <= |socks|
        invariant os.trace == old(os.trace) + CloseAll(socks[..i])
      {
        assert socks[..i + 1] == socks[..i] + [socks[i]];
        CloseAllAppend(socks[..i], [socks[i]]);
        os.Close(socks[i]);
        i := i + 1;
      }
      assert socks[..i] == socks;
      if touched {
        var _ := os.Spawn(RelaunchArgs(scriptFile), Some(workingDir));
      }
    }

    /**
     * The whole session: the loop, then, once it is left, every socket
     * closed and the server relaunched when the loop left for a reload.
     * `exit(0)` follows in both cases.
     */
    method Serve(iters: seq<Iteration>) returns (stop: Stop)
      requires Valid() && AllFromSelect(iters, listener)
      requires !interrupted && !touched
      modifies this, os, registry.Values
      ensures Valid()
      ensures stop == Control(iters, false)
      ensures interrupted == stop.Interrupted? && touched == stop.Touched?
      ensures Processed(iters, stop) <= |iters|
      ensures FromSelect(ReadyUpTo(iters, Processed(iters, stop)), listener)
      ensures Conns() == After(old(Conns()), listener, ReadyUpTo(iters, Processed(iters, stop)))
      ensures os.trace == old(os.trace) + ReadyCalls(tokenize, Commands(), ReadyUpTo(iters, Processed(iters, stop)))
                          + (if stop.Running? then [] else CloseAll(socks))
                          + (if stop.Touched? then [Spawn(LaunchRecord(RelaunchArgs(scriptFile), Some(workingDir)))] else [])
      ensures Pids() == PidsAfter(Commands(), os.pidOf, old(SpawnCount(os.trace)),
                                  ReadyTokens(tokenize, ReadyUpTo(iters, Processed(iters, stop))), old(Pids()))
    {
      stop := Run(iters);
      if !stop.Running? {
        Shutdown();
      }
    }
  }

  /** The close calls for `socks`, in order. */
  function CloseAll(socks: seq<SockId>): (calls: seq<OsCall>)
    ensures |calls| == |socks|
    ensures forall i :: 0 <= i < |socks| ==> calls[i] == Close(socks[i])
  {
    seq(|socks|, i requires 0 <= i < |socks| => Close(socks[i]))
  }

  /** Closing `a + b` closes `a`, then `b`. */
  lemma CloseAllAppend(a: seq<SockId>, b: seq<SockId>)
    ensures CloseAll(a + b) == CloseAll(a) + CloseAll(b)
  {
  }
}
