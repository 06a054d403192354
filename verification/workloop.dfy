/** The work loop of `main` in src/main.rs, as a step function over an explicit
    loop state. Each iteration is driven by one `Round`: what the image
    collection returned, the random draw, and the exit status of the
    wallpaper command. A finite sequence of rounds stands for the iterations
    the environment allows before the observation ends. */
module WorkLoop {
  import opened Wrappers
  import opened Images
  import Guard

  /** The resolved command line, as far as the loop and the guard use it. */
  datatype Config = Config(
    command: string,
    commandArgs: seq<string>,
    rotate: bool,
    forceDuplicate: bool)

  /** Exit status of the wallpaper command. */
  datatype Status = Success | NonZeroExit

  /** What the environment supplies to one iteration: the directories as the
      collection finds them, the random draw, and the command's exit status. */
  datatype Snapshot = Snapshot(dirs: seq<Dir>, draw: nat, status: Status)

  /** What one iteration observes: the collection's result in place of the
      directories it was computed from. */
  datatype Round = Round(loaded: Result<ImageList, LoadError>, draw: nat, status: Status)

  /** Why the loop broke off. Every one of them ends `main` with `Ok(())`. */
  datatype Stop = LoadFailed(error: LoadError) | CommandFailed | Rotated

  datatype State = Running | Stopped(reason: Stop)

  /** A run of the wallpaper command: the program and its argument vector. */
  datatype Invocation = Invocation(program: string, argv: seq<string>)

  /** What one iteration did: the command it ran, if any, and whether the
      loop slept afterwards. */
  datatype Iteration = Iteration(run: Option<Invocation>, slept: bool)

  /** The loop state together with the record of the iterations so far. */
  datatype Loop = Loop(state: State, history: seq<Iteration>)

  const Start: Loop := Loop(Running, [])

  /** The index the random generator draws from `0..len`; the draw itself is
      an input, reduced into the range. */
  function PickIndex(draw: nat, len: nat): (i: nat)
    requires len > 0
    ensures i < len
    ensures draw < len ==> i == draw
  {
    draw % len
  }

  /** `argv` is the configured arguments, in order, followed by exactly one
      more argument, which is one of `images`. */
  predicate ArgvFor(cfg: Config, argv: seq<string>, images: seq<string>)
  {
    && |argv| == |cfg.commandArgs| + 1
    && argv[..|cfg.commandArgs|] == cfg.commandArgs
    && argv[|cfg.commandArgs|] in images
  }

  /** An iteration on this round ends with a sleep and another iteration. */
  predicate Continues(cfg: Config, round: Round)
  {
    round.loaded.Ok? && round.status.Success? && !cfg.rotate
  }

  /** `it` is a faithful record of an iteration on `round`: the configured
      command ran exactly when images were loaded, with the configured
      arguments and one loaded image, and the loop slept exactly when it
      continues. */
  predicate Records(cfg: Config, round: Round, it: Iteration)
  {
    && (it.run.Some? <==> round.loaded.Ok?)
    && (it.run.Some? ==> it.run.value.program == cfg.command)
    && (it.run.Some? ==> ArgvFor(cfg, it.run.value.argv, round.loaded.value))
    && (it.slept <==> Continues(cfg, round))
  }

  /** The reason an iteration that does not continue gives for breaking:
      a load error first, then a failed command, then a one-shot rotation. */
  function StopReason(cfg: Config, round: Round): Stop
    requires !Continues(cfg, round)
  {
    if round.loaded.Err? then LoadFailed(round.loaded.error)
    else if round.status.NonZeroExit? then CommandFailed
    else Rotated
  }

  /** One iteration of the loop; a stopped loop stays as it is. */
  function Step(cfg: Config, l: Loop, round: Round): (l': Loop)
    ensures l.state.Stopped? ==> l' == l
    ensures l.state.Running? ==>
      && |l'.history| == |l.history| + 1
      && l'.history[..|l.history|] == l.history
      && Records(cfg, round, l'.history[|l.history|])
    ensures l.state.Running? ==> (l'.state.Running? <==> Continues(cfg, round))
    ensures l.state.Running? && l'.state.Stopped? ==> l'.state.reason == StopReason(cfg, round)
  {
    if l.state.Stopped? then l
    else
      match round.loaded
      case Err(e) => Loop(Stopped(LoadFailed(e)), l.history + [Iteration(None, false)])
      case Ok(images) =>
        var wallpaper := images[PickIndex(round.draw, |images|)];
        var run := Some(Invocation(cfg.command, cfg.commandArgs + [wallpaper]));
        assert (cfg.commandArgs + [wallpaper])[..|cfg.commandArgs|] == cfg.commandArgs;
        if round.status.NonZeroExit? then Loop(Stopped(CommandFailed), l.history + [Iteration(run, false)])
        else if cfg.rotate then Loop(Stopped(Rotated), l.history + [Iteration(run, false)])
        else Loop(Running, l.history + [Iteration(run, true)])
  }

  /** The loop run from its start over the given rounds: one iteration per
      round for as long as the loop keeps running. */
  function Run(cfg: Config, rounds: seq<Round>): (l: Loop)
    ensures |l.history| <= |rounds|
    ensures l.state.Running? ==> |l.history| == |rounds|
    decreases |rounds|
  {
    if |rounds| == 0 then Start
    else Step(cfg, Run(cfg, rounds[..|rounds| - 1]), rounds[|rounds| - 1])
  }

  /** The k-th recorded iteration is the one driven by the k-th round, and
      it records that round faithfully. */
  lemma {:induction false} RunRecords(cfg: Config, rounds: seq<Round>)
    ensures var l := Run(cfg, rounds);
      forall k :: 0 <= k < |l.history| ==> Records(cfg, rounds[k], l.history[k])
    decreases |rounds|
  {
    if |rounds| > 0 {
      var n := |rounds| - 1;
      var front := rounds[..n];
      RunRecords(cfg, front);
      var before := Run(cfg, front);
      var l := Run(cfg, rounds);
      assert l == Step(cfg, before, rounds[n]);
      if before.state.Running? {
        forall k | 0 <= k < |l.history|
          ensures Records(cfg, rounds[k], l.history[k])
        {
          if k < n {
            assert l.history[..n][k] == before.history[k];
            assert rounds[k] == front[k];
          }
        }
      }
    }
  }

  /** The loop keeps running exactly as long as every iteration succeeds
      without `rotate`; otherwise it stops at the first iteration that does
      not, for that iteration's reason. */
  lemma {:induction false} RunStops(cfg: Config, rounds: seq<Round>)
    ensures Run(cfg, rounds).state.Running? <==> forall k :: 0 <= k < |rounds| ==> Continues(cfg, rounds[k])
    ensures var l := Run(cfg, rounds);
      l.state.Stopped? ==>
        && |l.history| >= 1
        && (forall k :: 0 <= k < |l.history| - 1 ==> Continues(cfg, rounds[k]))
        && !Continues(cfg, rounds[|l.history| - 1])
        && l.state.reason == StopReason(cfg, rounds[|l.history| - 1])
    decreases |rounds|
  {
    if |rounds| > 0 {
      var n := |rounds| - 1;
      var front := rounds[..n];
      RunStops(cfg, front);
      var before := Run(cfg, front);
      assert Run(cfg, rounds) == Step(cfg, before, rounds[n]);
      forall k | 0 <= k < n
        ensures rounds[k] == front[k]
      {
      }
    }
  }

  /** Once the loop has stopped, later rounds change nothing: the loop has
      terminated. */
  lemma {:induction false} StoppedIsFinal(cfg: Config, rounds: seq<Round>, k: nat)
    requires k <= |rounds|
    requires Run(cfg, rounds[..k]).state.Stopped?
    ensures Run(cfg, rounds) == Run(cfg, rounds[..k])
    decreases |rounds| - k
  {
    if k == |rounds| {
      assert rounds[..k] == rounds;
    } else {
      var n := |rounds| - 1;
      var front := rounds[..n];
      assert front[..k] == rounds[..k];
      StoppedIsFinal(cfg, front, k);
      assert Run(cfg, rounds) == Step(cfg, Run(cfg, front), rounds[n]);
    }
  }

  /** The loop has returned exactly when some round ended it. */
  lemma {:induction false} StoppedIff(cfg: Config, rounds: seq<Round>)
    ensures Run(cfg, rounds).state.Stopped? <==> exists k :: 0 <= k < |rounds| && !Continues(cfg, rounds[k])
  {
    RunStops(cfg, rounds);
  }

  /** With `rotate` set the loop stops after exactly one iteration, whatever
      its outcome, and never sleeps. */
  lemma {:induction false} RotateRunsOnce(cfg: Config, rounds: seq<Round>)
    requires cfg.rotate && |rounds| > 0
    ensures Run(cfg, rounds).state.Stopped?
    ensures |Run(cfg, rounds).history| == 1
    ensures !Run(cfg, rounds).history[0].slept
  {
    RunStops(cfg, rounds);
    RunRecords(cfg, rounds);
    assert !Continues(cfg, rounds[0]);
  }

  /** How the whole program ends. */
  datatype Outcome =
    | GuardExit(pid: nat)                                // the guard's `exit(0)`
    | Returned(reason: Stop, history: seq<Iteration>)    // `main` returns `Ok(())`
    | StillRunning(history: seq<Iteration>)              // the rounds ran out first

  /** The round an iteration observes when the directories are as `s` has
      them: the collection is performed on them. */
  function Observe(s: Snapshot): (r: Round)
  {
    Round(Load(s.dirs), s.draw, s.status)
  }

  /** The rounds observed on a sequence of snapshots. */
  function ObserveAll(snapshots: seq<Snapshot>): (rounds: seq<Round>)
  {
    seq(|snapshots|, k requires 0 <= k < |snapshots| => Observe(snapshots[k]))
  }

  /** The program: the instance guard first, then the loop, each iteration
      collecting the images afresh. */
  function Program(cfg: Config, table: seq<Guard.Process>, matches: Guard.NameMatch, snapshots: seq<Snapshot>): (o: Outcome)
    ensures o.GuardExit? <==>
      !cfg.rotate && !cfg.forceDuplicate && exists k :: 0 <= k < |table| && Guard.Named(matches, table[k])
    ensures !o.GuardExit? ==> o.history == Run(cfg, ObserveAll(snapshots)).history
    ensures o.Returned? <==>
      !o.GuardExit? && exists k :: 0 <= k < |snapshots| && !Continues(cfg, Observe(snapshots[k]))
    ensures cfg.rotate && |snapshots| > 0 ==> o.Returned? && |o.history| == 1
  {
    match Guard.Check(cfg.rotate, cfg.forceDuplicate, table, matches)
    case QuietExit(pid) => GuardExit(pid)
    case Proceed =>
      var rounds := ObserveAll(snapshots);
      assert |rounds| == |snapshots| && forall k :: 0 <= k < |snapshots| ==> rounds[k] == Observe(snapshots[k]);
      var l := Run(cfg, rounds);
      assert cfg.rotate && |rounds| > 0 ==> |l.history| == 1 by {
        if cfg.rotate && |rounds| > 0 {
          RotateRunsOnce(cfg, rounds);
        }
      }
      StoppedIff(cfg, rounds);
      match l.state
      case Stopped(reason) => Returned(reason, l.history)
      case Running => StillRunning(l.history)
  }
}
