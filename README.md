# Dashboard server — a Dafny model

`dashboard_server.py` is a small TCP server. It listens for clients that
send newline-separated ASCII tokens, and it starts a detached child process
for each token that the JSON configuration maps to a command. It stops when
SIGINT or SIGTERM arrives. It relaunches itself when a "touch-reload" file
appears.

This project models the core of that script. It proves what the core
does, from the bytes of one received chunk all the way to the processes
that get spawned.

| file | module | what it models |
|---|---|---|
| `wrappers.dfy` | `Wrappers` | `Option`, for a value that may be missing (a failed decode, a missing `token` or `cwd`) |
| `ascii.dfy` | `Ascii` | the strict ASCII decode of a received chunk, and its inverse |
| `tokenizer.dfy` | `Tokenizer` | the token list comprehension: split on `'\n'`, strip `'\r'` and `' '`, drop empty pieces |
| `processes.dfy` | `Processes` | `ChildProcess` and its detached launch; the operating system as an object `Os` that records every spawn and close in a trace and hands out pids |
| `registry.dfy` | `Registry` | the token → `ChildProcess` registry built from the configured commands, and which launches a token list causes |
| `connections.dfy` | `Connections` | the `socks` list and the `addresses` dictionary, and how an accept or a dropped connection changes them |
| `loop_control.dfy` | `LoopControl` | the interrupt and touch-reload checks that end the main loop, and the relaunch arguments of `restart_server` |
| `server.dfy` | `DashboardServer` | the main loop as a class `Server`, whose fields are the script's globals; the specification of a whole session |

The network, the clock and the file system are inputs. Each pass of the
main loop is an `Iteration` value with three parts:

- whether a signal has arrived before the pass;
- whether the touch-reload file exists;
- the readiness events that `select` reports. An event is either a
  connection on the listener, a received chunk, or a failed `recv`.

The OS trace is the observable effect. The server's `tokenize` constant is
how a chunk becomes tokens. The constructor sets it to
`Tokenizer.ChunkTokens`, and the loop's contracts hold for any tokenizer.
`NonAsciiChunkIgnored` and `SendToken` connect the two.

## Model

| member | source | states |
|---|---|---|
| Ascii.Decode | dashboard_server.py:230-235 | decoding succeeds exactly when every byte is below 128; on success it keeps the length and each character's code |
| Ascii.DecodeEncode | dashboard_server.py:232 | decoding the ASCII encoding of an ASCII string gives the string back |
| Ascii.EncodeDecode | dashboard_server.py:232 | a chunk that decodes is the encoding of what it decodes to |
| Tokenizer.Split | dashboard_server.py:237 | `str.split` on one character gives at least one piece, and no piece holds the separator |
| Tokenizer.JoinSplit | dashboard_server.py:237 | joining the pieces of a split with the separator gives the original string |
| Tokenizer.SplitJoin | dashboard_server.py:237 | splitting a join of separator-free pieces gives the pieces back |
| Tokenizer.SplitFree | dashboard_server.py:237 | a string without the separator splits into itself alone |
| Tokenizer.SplitConcat | dashboard_server.py:237 | splitting `a + sep + b` gives the pieces of `a` followed by the pieces of `b` |
| Tokenizer.StripLeft | dashboard_server.py:237 | the result is a suffix; what was removed is all `'\r'`/`' '`; the result does not start with either |
| Tokenizer.StripRight | dashboard_server.py:237 | the result is a prefix; what was removed is all `'\r'`/`' '`; the result does not end with either |
| Tokenizer.Strip | dashboard_server.py:237 | `strip('\r ')` leaves no strip character at either end and never adds a newline |
| Tokenizer.StripCharacterised | dashboard_server.py:237 | the stripped string is an infix with only strip characters around it; it is empty exactly when the piece is all strip characters |
| Tokenizer.StripIsInfix | dashboard_server.py:237 | stripping the left end and then the right end leaves an infix with only strip characters around it |
| Tokenizer.StripEmpty | dashboard_server.py:237 | the `if token.strip('\r ')` filter drops a piece exactly when the piece is all strip characters |
| Tokenizer.StripFixed | dashboard_server.py:237 | a string with no strip character at either end is unchanged by stripping |
| Tokenizer.StripIdempotent | dashboard_server.py:237 | stripping twice is the same as stripping once |
| Tokenizer.KeepNonEmpty | dashboard_server.py:237 | the filtered comprehension never yields more tokens than there are pieces |
| Tokenizer.KeepNonEmptyAppend | dashboard_server.py:237 | the comprehension over two lists of pieces is the concatenation of the two results |
| Tokenizer.KeepStripped | dashboard_server.py:237 | defines `[token.strip('\r ') for token in pieces if token.strip('\r ')]` over split pieces; `KeepStrippedTokens` and `KeepNonEmptyAppend` state its properties |
| Tokenizer.Tokens | dashboard_server.py:237 | defines the tokens of a decoded message; `TokensOfLines`, `TokensConcat`, `TokensOfLine` and `SplitAcrossReads` state what it yields |
| Tokenizer.ChunkTokens | dashboard_server.py:230-237 | defines the tokens of a raw chunk: none when the ASCII decode fails, else the tokens of the message; `ChunkTokensAreTokens` and `DashboardServer.SendToken` state its properties |
| Tokenizer.KeepStrippedTokens | dashboard_server.py:237 | every token the comprehension keeps is non-empty, has no strip character at either end and has no newline |
| Tokenizer.ChunkTokensAreTokens | dashboard_server.py:230-237 | every token taken from a received chunk is such a token |
| Tokenizer.TokensConcat | dashboard_server.py:237 | the tokens of `a + '\n' + b` are the tokens of `a` followed by the tokens of `b` |
| Tokenizer.TokensOfLine | dashboard_server.py:237 | a line without a newline yields its stripped form, or nothing when that is empty |
| Tokenizer.TokensOfLines | dashboard_server.py:237 | sending tokens one per line yields exactly those tokens, in order |
| Tokenizer.TokensOfToken | dashboard_server.py:237 | a token sent alone yields itself |
| Tokenizer.TokenLine | dashboard_server.py:237 | a token followed by a newline yields itself |
| Tokenizer.SplitAcrossReads | dashboard_server.py:237 | a line cut in two by separate reads yields two tokens, where one read would yield one token |
| Tokenizer.LinesOfOne | dashboard_server.py:237 | proof step: `Lines` is how a client sends tokens, one per line; for one token it is that token followed by a newline |
| Processes.SpawnCount | dashboard_server.py:47-50 | the number of processes spawned so far is at most the trace length, and is zero for a trace of closes only |
| Processes.SpawnCountAppend | dashboard_server.py:47-50 | spawn counts add up over concatenated traces |
| Processes.Os.Spawn | dashboard_server.py:47-50 | a `Popen` appends one spawn with its arguments and working directory to the trace, and returns the next pid |
| Processes.Os.Close | dashboard_server.py:222 | a socket close appends one close to the trace |
| Processes.DescriptionOf | dashboard_server.py:38-41 | the description is the given one when it is non-empty, else the first argument, else `INVALID`; it is empty only when the first argument is empty |
| Processes.ChildProcess.constructor | dashboard_server.py:29-44 | keeps `args` and `cwd` (default `"."`), derives the description and starts with pid 0 |
| Processes.ChildProcess.StartDetached | dashboard_server.py:46-51 | spawns exactly its own arguments and cwd once, stores the new pid and returns it |
| Processes.ChildProcess.Launch | dashboard_server.py:47-49 | defines the `Popen` arguments and working directory of a process; `StartDetached`'s contract is stated with it |
| Registry.RegistryKeys | dashboard_server.py:132-137 | the registry's keys are exactly the configured tokens (a missing token is the key `None`), and each entry uses the top-level `cwd` |
| Registry.RegistrySpec | dashboard_server.py:132-137 | defines the launches the registry holds after the startup loop, one `update` per command in order; `RegistryKeys` and `LastOccurrenceWins` characterise it |
| Registry.CommandArgs | dashboard_server.py:135 | defines `cmd.get('args', [])`; `LastOccurrenceWins` uses it for the arguments of each entry |
| Registry.LastOccurrenceWins | dashboard_server.py:132-137 | for a repeated token, the last command with that token sets its arguments |
| Registry.SpecsUpdate | dashboard_server.py:137 | proof step for `BuildRegistry`: `dict.update` changes the launch of one key and no other |
| Registry.RegistrySpecStep | dashboard_server.py:133-137 | proof step for `BuildRegistry`: one more configured command updates the registry at its own token |
| Registry.BuildRegistry | dashboard_server.py:132-137 | builds a fresh, distinct `ChildProcess` per key that launches what `RegistrySpec` says, with pid 0 and the description derived from its arguments |
| Registry.Launches | dashboard_server.py:241-248 | a token list causes at most one spawn per token, and nothing else |
| Registry.LaunchesAppend | dashboard_server.py:241-248 | the launches of two token lists are the concatenation of their launches |
| Registry.LaunchOfToken | dashboard_server.py:241-248 | a known token at position `i` causes a spawn of its command, placed right after the spawns of the tokens before it |
| Registry.LaunchOrigin | dashboard_server.py:241-248 | every spawn comes from a known token at the matching position |
| Registry.NoLaunches | dashboard_server.py:241-244 | nothing is spawned exactly when no token is in the registry |
| Registry.RepeatedToken | dashboard_server.py:241-248 | a known token sent `n` times is spawned `n` times |
| Connections.Initial | dashboard_server.py:146-147 | the initial connection set (listener only, no addresses) is well formed |
| Connections.WellFormed | dashboard_server.py:146-147 | defines the invariant the loop keeps on `socks` and `addresses`: the listener first, no socket twice, an address for every other socket and for no other key; `Initial`, `StepWellFormed` and `After` prove it is kept |
| Connections.Accepted | dashboard_server.py:206-210 | defines the effect of an accept: a socket not yet listed is appended and its address recorded, otherwise nothing changes; `AcceptedWellFormed` and `AcceptThenDrop` state its properties |
| Connections.Dropped | dashboard_server.py:221-227 | defines the effect of a close: a listed socket leaves `socks` (first occurrence) and `addresses`; `DroppedWellFormed` states its properties |
| Connections.Step | dashboard_server.py:205-227 | defines one event's effect: accept for the listener, drop for an empty read or a failed `recv`, no change for a received chunk; `StepWellFormed` and `DashboardServer.NonAsciiChunkIgnored` state its properties |
| Connections.IndexOf | dashboard_server.py:225 | the first position of a socket in the list |
| Connections.RemoveFirst | dashboard_server.py:225 | `list.remove` takes exactly one element out |
| Connections.RemoveAt | dashboard_server.py:225 | removing a socket from a duplicate-free list keeps it duplicate-free and removes exactly that socket |
| Connections.AcceptedWellFormed | dashboard_server.py:206-210 | an accept keeps the set well formed, the listener first, the socket present, and records the address of a new socket |
| Connections.DroppedWellFormed | dashboard_server.py:221-227 | dropping a connection removes it from `socks` and `addresses` and keeps everything else |
| Connections.StepWellFormed | dashboard_server.py:203-235 | every readiness event keeps the connection set well formed |
| Connections.AcceptThenDrop | dashboard_server.py:206-227 | accepting a new socket and then dropping it restores the connection set |
| Connections.After | dashboard_server.py:203-235 | the connection set after any sequence of `select` results is well formed |
| Connections.AfterStep | dashboard_server.py:203 | proof step for `Server.HandleReady`: the sockets of one `select` result are handled in order, one at a time |
| Connections.AfterAppend | dashboard_server.py:188-235 | handling two batches of events is handling the first and then the second |
| LoopControl.ControlFromSound | dashboard_server.py:188-199 | the loop stops at the first pass where a signal was seen or the reload file exists, and interrupts win over reloads |
| LoopControl.ControlFrom | dashboard_server.py:188-199 | defines the head-of-loop checks from pass `i` on: interrupted first, then the reload file, else the next pass; `ControlFromSound` states what each outcome implies |
| LoopControl.Control | dashboard_server.py:183-199 | defines where the loop leaves, starting from the flag before the first check; `ControlCharacterised` gives all three outcomes as if-and-only-if |
| LoopControl.ControlCharacterised | dashboard_server.py:188-199 | the loop runs on, stops interrupted at pass `j`, or stops touched at pass `j`, exactly when the matching pattern of signals and reload files holds |
| LoopControl.InterruptBeatsReload | dashboard_server.py:191-199 | when a signal and the reload file come in the same pass, the server stops as interrupted |
| LoopControl.RelaunchArgs | dashboard_server.py:59-66 | a `.exe` relaunches itself; a `.py`/`.pyw` runs under `pythonw.exe`; anything else gives no arguments; the script is always the last argument |
| LoopControl.EndsWith | dashboard_server.py:61-63 | defines `str.endswith`, which `RelaunchArgs`'s contract is stated in |
| DashboardServer.PidsAfter | dashboard_server.py:241-248 | dispatching tokens keeps the set of registry keys |
| DashboardServer.EventTokens | dashboard_server.py:215-237 | defines the tokens one readiness event dispatches: the tokens of a non-empty received chunk, none otherwise; `NonAsciiChunkIgnored` and `SendToken` tie it to the chunk tokenizer |
| DashboardServer.EventCalls | dashboard_server.py:215-248 | defines the OS calls of one event: a close for an empty read or a failed `recv`, else the launches of its tokens; `Server.HandleEvent` is proved to perform exactly these |
| DashboardServer.PidsAfterLastLaunch | dashboard_server.py:246-247 | a process's stored pid is the pid of its last launch |
| DashboardServer.PidsAfterUnlaunched | dashboard_server.py:241-248 | a process whose token was never sent keeps its pid |
| DashboardServer.PidsAfterAppend | dashboard_server.py:241-248 | dispatching two token lists one after the other gives the pids of dispatching their concatenation |
| DashboardServer.FlatMapAppend | dashboard_server.py:203-248 | proof step, generic over the function mapped: a per-event concatenation distributes over appended event lists; `ReadyTokensAppend` and `ReadyCallsAppend` instantiate it |
| DashboardServer.ReadySpawns | dashboard_server.py:203-248 | the number of processes spawned while handling events is the number of launches of their tokens |
| DashboardServer.ReadyTokensAppend | dashboard_server.py:203-237 | the tokens of two batches of events are the tokens of each, concatenated |
| DashboardServer.ReadyCallsAppend | dashboard_server.py:203-248 | the OS calls of two batches of events are the calls of each, concatenated |
| DashboardServer.ReadyUpToFromSelect | dashboard_server.py:188-201 | the events of all passes so far are `select` results for this listener |
| DashboardServer.NonAsciiChunkIgnored | dashboard_server.py:230-235 | a chunk that is not ASCII spawns nothing and leaves the connection open |
| DashboardServer.SendToken | dashboard_server.py:230-248 | a client that sends one token and a newline in one chunk starts that token's command once, or nothing when the token is unknown |
| DashboardServer.CloseAll | dashboard_server.py:251-252 | closing all sockets is one close per socket, in list order |
| DashboardServer.CloseAllAppend | dashboard_server.py:251-252 | proof step for `Server.Shutdown`: closing two lists of sockets is closing each in turn |
| DashboardServer.Server.constructor | dashboard_server.py:132-147 | sets up the registry from the commands (fresh processes, pid 0, description from their arguments), the listener-only connection set, both flags false and the chunk tokenizer |
| DashboardServer.Server.Accept | dashboard_server.py:206-210 | the connection set becomes `Accepted(...)` and stays well formed |
| DashboardServer.Server.CloseConnection | dashboard_server.py:221-227 | the socket is closed once and the connection set becomes `Dropped(...)` |
| DashboardServer.Server.DispatchToken | dashboard_server.py:242-248 | an unknown token does nothing; a known token spawns its command once and that process's pid becomes the new pid |
| DashboardServer.Server.Dispatch | dashboard_server.py:241-248 | the tokens' launches are appended to the trace, with consecutive pids, and the registry's pids become `PidsAfter(...)` |
| DashboardServer.Server.HandleEvent | dashboard_server.py:205-248 | one readiness event: the connection set takes its `Step`, the trace gains the event's calls, and the pids are updated for its tokens |
| DashboardServer.Server.HandleReady | dashboard_server.py:203-248 | one `select` result: the same, over all its sockets in order |
| DashboardServer.Server.Advance | dashboard_server.py:201-248 | one full pass carries the session state from pass `i` to pass `i + 1` |
| DashboardServer.Server.Iterate | dashboard_server.py:188-248 | one pass either stops (interrupted before touched), leaving everything unchanged, or handles that pass's events |
| DashboardServer.Server.Run | dashboard_server.py:183-248 | the loop stops as `Control` says, after handling the events of exactly the passes before the stop: connections, trace and pids |
| DashboardServer.Server.Shutdown | dashboard_server.py:250-258 | every socket is closed in order; a touch-reload then relaunches the script from the working directory |
| DashboardServer.Server.Serve | dashboard_server.py:183-258 | a whole session: the spawns of the handled events, then, if it stopped, all closes, then the relaunch when touched; the final connection set, each process's last pid, and `interrupted`/`touched` set exactly by how the loop stopped |

## Left out

- Sockets, `bind`/`listen` and `select` are not modelled. Each loop pass receives its readiness events as input. The 0.1 s `select` timeout only matters for when a pass happens, which the model does not track.
- The 1024-byte cap of `recv` is not modelled: a received chunk is any byte sequence.
- Signals are the `signalled` flag of each pass. The handler is installed (l.176-177) before `interrupted` is reset to false (l.184), so a signal that arrives in between is lost. The model assumes no such signal.
- The touch-reload file is the `reloadExists` flag. Its removal at start-up (l.170-172) and the `TypeError` when `touch_reload` is not configured are not modelled.
- `Popen` failures are not modelled: every launch yields a pid. The code catches neither a `Popen` failure (l.47, l.67) nor an `accept` failure (l.207), so either one would end the script.
- Pids come from the `Os` object's `pidOf` function over the number of spawns so far. The real values come from the operating system.
- A `recv` error sets the buffer to empty (l.217-218), so it is handled as a closed connection. The model gives both the same `Step`.
- When a chunk does not decode, the connection stays open (l.233-235). The model follows the code.
- Each command's own `cwd` entry is ignored: every command gets the top-level `cwd` (l.136). The model follows the code.
- Configuration tokens are strings or missing (`Key = Option<string>`). Other JSON values are not modelled, and neither are non-string arguments.
- Argument parsing, JSON loading, the configuration defaults, logging and the frozen-executable detection are not modelled. None of them affects what is launched.
- The `pid` method of `ChildProcess` (l.53-54) is not modelled: the `pid` attribute set in `__init__` shadows it.
- `exit(0)` at l.255 and l.258 is the end of `Serve`.
- The relaunch's `os.getcwd()` is the server's `workingDir` constant.
- DashboardServer.Server.Run: the loop is modelled over a finite sequence of passes. A session that never stops is covered only up to that sequence's length.
