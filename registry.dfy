/**
 * The command registry (`PROCESSES_MAPPING`, dashboard_server.py:132-137) and
 * what dispatching tokens against it starts (dashboard_server.py:241-248).
 */
module Registry {
  import opened Wrappers
  import opened Processes

  /** A registry key: the command's `token` entry, `None` when the entry is missing. */
  type Key = Option<string>

  /** One element of the configuration's `commands` list; `None` marks a missing entry. */
  datatype Command = Command(token: Key, args: Option<seq<string>>)

  /** `cmd.get('args', [])`. */
  function CommandArgs(cmd: Command): seq<string> {
    cmd.args.GetOr([])
  }

  /**
   * The launches the registry holds after the startup loop has seen
   * `commands`: one entry per token, in command order, each `update`
   * replacing what an earlier command with the same token put there. The
   * working directory is the configuration's top-level `cwd` for all.
   */
  function RegistrySpec(commands: seq<Command>, cwd: Option<string>): map<Key, LaunchRecord>
    decreases |commands|
  {
    if commands == [] then map[]
    else
      var last := commands[|commands| - 1];
      RegistrySpec(commands[..|commands| - 1], cwd)[last.token := LaunchRecord(CommandArgs(last), cwd)]
  }

  /** Command `i` is the last one that names its token. */
  predicate IsLastOccurrence(commands: seq<Command>, i: int) {
    0 <= i < |commands| && forall j :: i < j < |commands| ==> commands[j].token != commands[i].token
  }

  /** The registry's keys are exactly the configured tokens, and every entry runs in the top-level `cwd`. */
  lemma {:induction false} RegistryKeys(commands: seq<Command>, cwd: Option<string>)
    ensures forall k :: k in RegistrySpec(commands, cwd) <==> exists i :: 0 <= i < |commands| && commands[i].token == k
    ensures forall k :: k in RegistrySpec(commands, cwd) ==> RegistrySpec(commands, cwd)[k].cwd == cwd
    decreases |commands|
  {
    if commands != [] {
      var n := |commands| - 1;
      var prefix := commands[..n];
      RegistryKeys(prefix, cwd);
      forall k | k in RegistrySpec(commands, cwd)
        ensures exists i :: 0 <= i < |commands| && commands[i].token == k
      {
        if k != commands[n].token {
          assert RegistrySpec(commands, cwd)
              == RegistrySpec(prefix, cwd)[commands[n].token := LaunchRecord(CommandArgs(commands[n]), cwd)];
          assert k in RegistrySpec(prefix, cwd);
          var i :| 0 <= i < |prefix| && prefix[i].token == k;
          assert commands[i].token == k;
        }
      }
      forall k | exists i :: 0 <= i < |commands| && commands[i].token == k
        ensures k in RegistrySpec(commands, cwd)
      {
        var i :| 0 <= i < |commands| && commands[i].token == k;
        if i < n {
          assert prefix[i].token == k;
        }
      }
    }
  }

  /** Each token maps to the arguments of the last command that names it. */
  lemma {:induction false} LastOccurrenceWins(commands: seq<Command>, cwd: Option<string>, i: int)
    requires IsLastOccurrence(commands, i)
    ensures commands[i].token in RegistrySpec(commands, cwd)
    ensures RegistrySpec(commands, cwd)[commands[i].token] == LaunchRecord(CommandArgs(commands[i]), cwd)
    decreases |commands|
  {
    var n := |commands| - 1;
    if i < n {
      var prefix := commands[..n];
      assert IsLastOccurrence(prefix, i) by {
        forall j | i < j < |prefix| ensures prefix[j].token != prefix[i].token {
          assert prefix[j] == commands[j];
        }
      }
      LastOccurrenceWins(prefix, cwd, i);
    }
  }

  /** The launches a registry of `ChildProcess` objects stands for. */
  function Specs(registry: map<Key, ChildProcess>): map<Key, LaunchRecord> {
    map k | k in registry :: registry[k].Launch()
  }

  /** Distinct tokens map to distinct `ChildProcess` objects. */
  predicate Injective(registry: map<Key, ChildProcess>) {
    forall k1, k2 :: k1 in registry && k2 in registry && k1 != k2 ==> registry[k1] != registry[k2]
  }

  /** Storing a process under `k` stores its launch under `k`. */
  lemma SpecsUpdate(registry: map<Key, ChildProcess>, k: Key, proc: ChildProcess)
    ensures Specs(registry[k := proc]) == Specs(registry)[k := proc.Launch()]
  {
  }

  /** One more command seen by the startup loop. */
  lemma RegistrySpecStep(commands: seq<Command>, cwd: Option<string>, i: nat)
    requires i < |commands|
    ensures RegistrySpec(commands[..i + 1], cwd)
         == RegistrySpec(commands[..i], cwd)[commands[i].token := LaunchRecord(CommandArgs(commands[i]), cwd)]
  {
    assert commands[..i + 1][..i] == commands[..i];
  }

  /**
   * The startup loop: one fresh `ChildProcess` per command, built with the
   * top-level `cwd` and no description, stored under its token.
   */
  method BuildRegistry(commands: seq<Command>, cwd: Option<string>) returns (registry: map<Key, ChildProcess>)
    ensures Specs(registry) == RegistrySpec(commands, cwd)
    ensures Injective(registry)
    ensures forall k :: k in registry ==> fresh(registry[k])
    ensures forall k :: k in registry ==>
              registry[k].pid == 0 && registry[k].description == DescriptionOf("", registry[k].args)
  {
    registry := map[];
    var i := 0;
    while i < |commands|
      invariant 0 <= i <= |commands|
      invariant Specs(registry) == RegistrySpec(commands[..i], cwd)
      invariant Injective(registry)
      invariant forall k :: k in registry ==> fresh(registry[k])
      invariant forall k :: k in registry ==>
                  registry[k].pid == 0 && registry[k].description == DescriptionOf("", registry[k].args)
    {
      var cmd := commands[i];
      var proc := new ChildProcess(args := CommandArgs(cmd), cwd := cwd);
      SpecsUpdate(registry, cmd.token, proc);
      RegistrySpecStep(commands, cwd, i);
      registry := registry[cmd.token := proc];
      i := i + 1;
    }
    assert commands[..|commands|] == commands;
  }

  /** The processes started, in order, when `tokens` are dispatched: one per registered token. */
  function Launches(specs: map<Key, LaunchRecord>, tokens: seq<string>): (calls: seq<OsCall>)
    ensures |calls| <= |tokens|
    ensures forall j :: 0 <= j < |calls| ==> calls[j].Spawn?
    decreases |tokens|
  {
    if tokens == [] then []
    else
      var t := tokens[|tokens| - 1];
      Launches(specs, tokens[..|tokens| - 1]) + (if Some(t) in specs then [Spawn(specs[Some(t)])] else [])
  }

  /** Dispatching two token lists one after the other starts the processes of each, in that order. */
  lemma {:induction false} LaunchesAppend(specs: map<Key, LaunchRecord>, a: seq<string>, b: seq<string>)
    ensures Launches(specs, a + b) == Launches(specs, a) + Launches(specs, b)
    decreases |b|
  {
    if b == [] {
      assert a + b == a;
    } else {
      assert (a + b)[..|a + b| - 1] == a + b[..|b| - 1];
      LaunchesAppend(specs, a, b[..|b| - 1]);
    }
  }

  /**
   * The registered token at position `i` starts its own process, as launch
   * number `|Launches(specs, tokens[..i])|`: unregistered tokens before it
   * start nothing and do not stop it.
   */
  lemma {:induction false} LaunchOfToken(specs: map<Key, LaunchRecord>, tokens: seq<string>, i: int)
    requires 0 <= i < |tokens| && Some(tokens[i]) in specs
    ensures |Launches(specs, tokens[..i])| < |Launches(specs, tokens)|
    ensures Launches(specs, tokens)[|Launches(specs, tokens[..i])|] == Spawn(specs[Some(tokens[i])])
  {
    assert tokens == tokens[..i] + [tokens[i]] + tokens[i + 1..];
    LaunchesAppend(specs, tokens[..i] + [tokens[i]], tokens[i + 1..]);
    LaunchesAppend(specs, tokens[..i], [tokens[i]]);
    assert [tokens[i]][..0] == [];
  }

  /**
   * Every launch comes from a registered token: launch `j` is the one of the
   * token at some position `i` with exactly `j` launches before it. With
   * `LaunchOfToken` this makes launches and registered tokens correspond one
   * to one, in order.
   */
  lemma {:induction false} LaunchOrigin(specs: map<Key, LaunchRecord>, tokens: seq<string>, j: int) returns (i: int)
    requires 0 <= j < |Launches(specs, tokens)|
    ensures 0 <= i < |tokens| && Some(tokens[i]) in specs
    ensures |Launches(specs, tokens[..i])| == j
    ensures Launches(specs, tokens)[j] == Spawn(specs[Some(tokens[i])])
    decreases |tokens|
  {
    var n := |tokens| - 1;
    var p := tokens[..n];
    if j < |Launches(specs, p)| {
      i := LaunchOrigin(specs, p, j);
      assert tokens[..i] == p[..i];
    } else {
      i := n;
    }
  }

  /** A chunk starts nothing exactly when none of its tokens is registered. */
  lemma {:induction false} NoLaunches(specs: map<Key, LaunchRecord>, tokens: seq<string>)
    ensures Launches(specs, tokens) == [] <==> forall i :: 0 <= i < |tokens| ==> Some(tokens[i]) !in specs
    decreases |tokens|
  {
    if tokens != [] {
      var n := |tokens| - 1;
      NoLaunches(specs, tokens[..n]);
      assert forall i :: 0 <= i < n ==> tokens[..n][i] == tokens[i];
    }
  }

  /** No deduplication: a registered token sent `n` times starts its process `n` times. */
  lemma {:induction false} RepeatedToken(specs: map<Key, LaunchRecord>, t: string, n: nat)
    requires Some(t) in specs
    ensures Launches(specs, seq(n, _ => t)) == seq(n, _ => Spawn(specs[Some(t)]))
  {
    if n > 0 {
      RepeatedToken(specs, t, n - 1);
      assert seq(n, _ => t)[..n - 1] == seq(n - 1, _ => t);
      assert seq(n, _ => Spawn(specs[Some(t)])) == seq(n - 1, _ => Spawn(specs[Some(t)])) + [Spawn(specs[Some(t)])];
    }
  }
}
