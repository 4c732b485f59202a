/**
 The command line of the library: one subcommand per entry point, and the
 dispatcher that runs it, prints what it prints and turns every error into
 the process's error. Printing is modelled as the list of lines written to
 standard output.
 */
module Commands {
  import opened Common
  import opened Text
  import opened FileSystem
  import opened Config
  import opened Iptables
  import opened Engine
  import Service
  import Autostart

  /** The subcommands. `SetAutostart` carries the flag value the user asked for. */
  datatype Command =
    | Start
    | Stop
    | Restart
    | Status
    | SetAutostart(on: bool)
    | GetAutostart
    | ModuleVersion
    | BinaryVersion
    | Args(args: seq<string>)

  /** What the dispatcher cannot compute: the JSON parser, the daemon's pid
      (or nothing when daemonizing fails), the `version` entry of
      `module.prop` when that file loads and has one, and the engine version
      fixed at build time. */
  datatype Env = Env(
    parse: string -> Option<Json>,
    daemon: Option<int>,
    moduleVersion: Option<string>,
    binaryVersion: string)

  /** The world afterwards, how the command ended, the lines it printed, and
      the argument vector the engine was started with, if any. */
  datatype Exec = Exec(world: Service.World, outcome: Outcome<()>, printed: seq<string>, engineArgv: Option<seq<string>>)

  const WORKING_LINE: string := "zaprett is working"
  const STOPPED_LINE: string := "zaprett is stopped"

  /** The lines a start prints on the terminal: the greeting when it is run
      as root, and the closing line when the start returned in this process.
      When the daemon detaches, the process that goes on is the daemon,
      whose standard output is the engine's output file, so the terminal
      sees only the greeting. */
  function StartLines(root: bool, o: Outcome<()>, daemon: Option<int>): seq<string> {
    (if root then [Service.STARTING_LINE] else [])
    + (if root && o.Done? && daemon.None? then [Service.STARTED_LINE] else [])
  }

  /** `Command::exec`. */
  function Execute(cmd: Command, w: Service.World, env: Env): (x: Exec)
    ensures x.engineArgv.Some? ==> cmd.Args?
    ensures !cmd.Start? && !cmd.Stop? && !cmd.Restart? && !cmd.SetAutostart? ==> x.world == w
  {
    match cmd
    case Start =>
      var r := Service.Start(w, env.parse, env.daemon);
      Exec(r.world, r.outcome, StartLines(w.root, r.outcome, env.daemon), None)
    case Stop =>
      var r := Service.Stop(w);
      Exec(r.world, r.outcome, [], None)
    case Restart =>
      var r := Service.Restart(w, env.parse, env.daemon);
      var started := w.root && Service.Stop(w).outcome.Done?;
      Exec(r.world, r.outcome, StartLines(started, r.outcome, env.daemon), None)
    case Status =>
      (match Service.Status(w)
       case Done(running) => Exec(w, Done(()), [if running then WORKING_LINE else STOPPED_LINE], None)
       case Failed(e) => Exec(w, Failed(e), [], None)
       case Panicked(m) => Exec(w, Panicked(m), [], None))
    case SetAutostart(on) =>
      var s := Autostart.SetAutostart(w.fs, on);
      Exec(w.(fs := s.fs), if s.result.Ok? then Done(()) else Failed(s.result.error), [], None)
    case GetAutostart =>
      Exec(w, Done(()), [if Autostart.GetAutostart(w.fs) then "true" else "false"], None)
    case ModuleVersion =>
      Exec(w, Done(()), if env.moduleVersion.Some? then [env.moduleVersion.value] else [], None)
    case BinaryVersion =>
      Exec(w, Done(()), [env.binaryVersion], None)
    case Args(args) =>
      var l := RunNfqws(Join(args, " "));
      Exec(w, l.outcome, [], l.engineArgv)
  }

  // ------------------------------------------------------------ properties

  /** The service subcommands end exactly as the service call does, with the
      same world; stop prints nothing. */
  lemma ServiceCommandsForward(w: Service.World, env: Env)
    ensures var r := Service.Start(w, env.parse, env.daemon);
      var x := Execute(Start, w, env);
      x.world == r.world && x.outcome == r.outcome && x.engineArgv.None?
    ensures var r := Service.Stop(w);
      Execute(Stop, w, env) == Exec(r.world, r.outcome, [], None)
    ensures var r := Service.Restart(w, env.parse, env.daemon);
      var x := Execute(Restart, w, env);
      x.world == r.world && x.outcome == r.outcome && x.engineArgv.None?
  {
  }

  /** A start as root prints the greeting first, whatever happens next, and
      the closing line exactly when it succeeded without a daemon detaching;
      a start that is not root prints nothing and fails. */
  lemma StartPrints(w: Service.World, env: Env)
    ensures var x := Execute(Start, w, env);
      && (!w.root ==> x.printed == [] && x.outcome == Failed(NotRoot))
      && (w.root ==> 1 <= |x.printed| <= 2 && x.printed[0] == Service.STARTING_LINE)
      && (Service.STARTED_LINE in x.printed <==> w.root && x.outcome.Done? && env.daemon.None?)
      && (|x.printed| == 2 ==> x.printed[1] == Service.STARTED_LINE)
  {
    assert Service.STARTING_LINE != Service.STARTED_LINE by {
      assert Service.STARTING_LINE[0] != Service.STARTED_LINE[0];
    }
  }

  /** A restart whose stop did not succeed prints nothing; otherwise it is
      the start on the stopped world, printed lines included. */
  lemma RestartPrints(w: Service.World, env: Env)
    ensures !(w.root && Service.Stop(w).outcome.Done?) ==> Execute(Restart, w, env).printed == []
    ensures w.root && Service.Stop(w).outcome.Done? ==>
      Execute(Restart, w, env) == Execute(Start, Service.Stop(w).world, env)
  {
    if w.root {
      Service.RestartSequence(w, env.parse, env.daemon);
    }
  }

  /** The status subcommand prints one line, "working" exactly when the
      service status is true, and fails without printing for a non-root caller. */
  lemma StatusLine(w: Service.World, env: Env)
    ensures var x := Execute(Status, w, env);
      && (w.root ==> x.outcome == Done(()) && |x.printed| == 1)
      && (x.printed == [WORKING_LINE] <==> Service.Status(w) == Done(true))
      && (x.printed == [STOPPED_LINE] <==> Service.Status(w) == Done(false))
      && (!w.root ==> x == Exec(w, Failed(NotRoot), [], None))
  {
    assert WORKING_LINE != STOPPED_LINE by { assert WORKING_LINE[11] != STOPPED_LINE[11]; }
  }

  /** Stopping a service whose queue rule is already gone from the first
      chain panics: clearing the rules fails before anything is read. */
  lemma StopWhenStopped(w: Service.World, env: Env)
    requires w.root && w.net.available && MANGLE_POST in w.net.chains && RULE !in w.net.chains[MANGLE_POST]
    ensures Execute(Stop, w, env) == Exec(w, Panicked(Service.CLEAR_PANIC), [], None)
  {
    Service.StopWithoutRules(w);
  }

  /** Setting the flag and then asking for it prints the value that was set,
      whenever setting it succeeded. */
  lemma SetThenGet(w: Service.World, env: Env, on: bool)
    requires Autostart.AUTOSTART_PATH !in w.fs.dirs
    requires Execute(SetAutostart(on), w, env).outcome.Done?
    ensures Execute(GetAutostart, Execute(SetAutostart(on), w, env).world, env).printed
         == [if on then "true" else "false"]
  {
    if on {
      Autostart.EnableThenGet(w.fs);
    } else {
      Autostart.DisableThenGet(w.fs);
    }
  }

  /** A failed flag change is returned as the command's error and leaves the
      world as it was. */
  lemma SetAutostartFailure(w: Service.World, env: Env, on: bool)
    requires Autostart.SetAutostart(w.fs, on).result.Err?
    ensures Execute(SetAutostart(on), w, env)
         == Exec(w, Failed(Autostart.SetAutostart(w.fs, on).result.error), [], None)
  {
    assert w.(fs := w.fs) == w;
  }

  /** `args` hands its arguments to the engine after the fixed prefix, one
      per slot, or `-v` when there are none. */
  lemma ArgsReachEngine(w: Service.World, env: Env, args: seq<string>)
    requires AreWords(args) && forall i :: 0 <= i < |args| ==> NUL !in args[i]
    ensures var x := Execute(Args(args), w, env);
      && x.outcome == Done(())
      && x.engineArgv == Some(LIB_PREFIX + (if args == [] then ["-v"] else args))
  {
    RunJoinedArgs(args);
  }
}
