/**
 * Loop control (dashboard_server.py:183-199, 250-258) and the relaunch
 * argument vector (`restart_server`, dashboard_server.py:59-69).
 */
module LoopControl {
  import opened Connections

  /**
   * One turn of the `while True` loop: whether a SIGINT/SIGTERM arrived since
   * the previous check (the handler only sets `interrupted`), whether the
   * touch-reload file exists when it is checked, and what `select` reported.
   */
  datatype Iteration = Iteration(signalled: bool, reloadExists: bool, ready: seq<Readiness>)

  /** Where the loop stands after a run of iterations. */
  datatype Stop =
    | Running             // every iteration passed both checks; the loop goes on
    | Interrupted(at: nat) // left at the check of iteration `at`: `interrupted` was set
    | Touched(at: nat)     // left at the check of iteration `at`: the reload file exists

  /**
   * The checks at the head of iteration `i` and after: `interrupted` first,
   * then the reload file; `interrupted` is the flag before iteration `i`'s
   * check.
   */
  function ControlFrom(iters: seq<Iteration>, interrupted: bool, i: nat): Stop
    requires i <= |iters|
    decreases |iters| - i
  {
    if i == |iters| then Running
    else if interrupted || iters[i].signalled then Interrupted(i)
    else if iters[i].reloadExists then Touched(i)
    else ControlFrom(iters, false, i + 1)
  }

  /** Where the loop leaves, given the flag before its first check. */
  function Control(iters: seq<Iteration>, interrupted: bool): Stop {
    ControlFrom(iters, interrupted, 0)
  }

  /** Iterations `[i, j)` saw no signal and no reload file. */
  predicate Quiet(iters: seq<Iteration>, i: int, j: int)
    requires 0 <= i <= j <= |iters|
  {
    forall k :: i <= k < j ==> !iters[k].signalled && !iters[k].reloadExists
  }

  /** What each outcome of the checks from iteration `i` on implies. */
  lemma {:induction false} ControlFromSound(iters: seq<Iteration>, interrupted: bool, i: nat)
    requires i <= |iters|
    ensures var stop := ControlFrom(iters, interrupted, i);
      && (stop.Running? ==> (i == |iters| || !interrupted) && Quiet(iters, i, |iters|))
      && (stop.Interrupted? ==> i <= stop.at < |iters| && Quiet(iters, i, stop.at)
                                && (interrupted ==> stop.at == i) && (interrupted || iters[stop.at].signalled))
      && (stop.Touched? ==> i <= stop.at < |iters| && Quiet(iters, i, stop.at) && !interrupted
                            && !iters[stop.at].signalled && iters[stop.at].reloadExists)
    decreases |iters| - i
  {
    if i < |iters| && !interrupted && !iters[i].signalled && !iters[i].reloadExists {
      ControlFromSound(iters, false, i + 1);
    }
  }

  /**
   * When the loop stops, and why: it keeps running exactly while no check
   * sees the interrupt flag or the reload file; it leaves at iteration `j`
   * on the interrupt exactly when `j` is the first such check and the flag
   * is set there, and for a reload exactly when `j` is the first such check,
   * the flag is clear and the file exists. So the interrupt wins over the
   * reload file.
   */
  lemma ControlCharacterised(iters: seq<Iteration>, interrupted: bool, j: nat)
    ensures Control(iters, interrupted).Running? <==> (iters == [] || !interrupted) && Quiet(iters, 0, |iters|)
    ensures Control(iters, interrupted) == Interrupted(j) <==>
              j < |iters| && Quiet(iters, 0, j) && (interrupted ==> j == 0) && (interrupted || iters[j].signalled)
    ensures Control(iters, interrupted) == Touched(j) <==>
              j < |iters| && Quiet(iters, 0, j) && !interrupted && !iters[j].signalled && iters[j].reloadExists
  {
    ControlFromSound(iters, interrupted, 0);
  }

  /** The interrupt is checked first: an interrupted loop never reloads, even with the reload file present. */
  lemma InterruptBeatsReload(iters: seq<Iteration>, j: nat)
    requires j < |iters| && Quiet(iters, 0, j)
    requires iters[j].signalled && iters[j].reloadExists
    ensures Control(iters, false) == Interrupted(j)
  {
    ControlCharacterised(iters, false, j);
  }

  /** `s.endswith(suffix)`. */
  predicate EndsWith(s: string, suffix: string) {
    |suffix| <= |s| && s[|s| - |suffix|..] == suffix
  }

  /**
   * The argument vector `restart_server` spawns for the script file `file`:
   * the file itself when it is an `.exe`, the file under `pythonw.exe` for a
   * `.py` or `.pyw` script, and nothing otherwise.
   */
  function RelaunchArgs(file: string): (args: seq<string>)
    ensures EndsWith(file, ".exe") ==> args == [file]
    ensures !EndsWith(file, ".exe") && (EndsWith(file, ".py") || EndsWith(file, ".pyw")) ==> args == ["pythonw.exe", file]
    ensures args == [] <==> !EndsWith(file, ".exe") && !EndsWith(file, ".py") && !EndsWith(file, ".pyw")
    ensures args != [] ==> args[|args| - 1] == file
  {
    if EndsWith(file, ".exe") then [file]
    else if EndsWith(file, ".py") || EndsWith(file, ".pyw") then ["pythonw.exe", file]
    else []
  }
}
