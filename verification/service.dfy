/**
 The service supervisor of the library: start, stop, restart and status as
 transitions of an abstract world. The world holds what the calls observe or
 change: whether the caller is root, the filesystem, the kernel parameters,
 the packet-filter chains and the process table (pid to process name).

 Two inputs the model cannot compute are parameters: the JSON parser (a
 function from text to a parsed value) and the outcome of daemonizing (the
 daemon's pid, or nothing when the `daemonize` crate reports an error).
 */
module Service {
  import opened Common
  import opened Text
  import opened FileSystem
  import opened Merge
  import opened Config
  import opened Template
  import opened Iptables
  import Utf8

  datatype World = World(
    root: bool,
    fs: FileSystem,
    sysctls: map<string, string>,
    net: Netfilter,
    procs: map<int, string>)

  /** The world after a call, how the call ended, and the substituted strategy
      it handed to the daemon launcher, if it got that far. */
  datatype Run = Run(world: World, outcome: Outcome<()>, strategy: Option<string>)

  const CONFIG_PATH: string := ZAPRETT_DIR_PATH + "/config.json"
  const PID_LOCK: string := TMP_DIR + "/pid.lock"
  const NFQWS_OUT: string := TMP_DIR + "/nfqws.out"
  const NFQWS_ERR: string := TMP_DIR + "/nfqws.err"
  const CONNTRACK_LIBERAL: string := "net.netfilter.nf_conntrack_tcp_be_liberal"
  /** The name the status check expects the daemon process to carry. */
  const PROCESS_NAME: string := "zaprett"
  /** The lines `start_service` prints: the first once the caller is known to
      be root, the second once the daemon launcher has returned. */
  const STARTING_LINE: string := "Starting zaprett service..."
  const STARTED_LINE: string := "zaprett service started!"

  const CONFIG_OPEN_PANIC: string := "cannot open config.json"
  const INVALID_JSON_PANIC: string := "invalid json"
  const SETUP_PANIC: string := "setup iptables rules"
  const CLEAR_PANIC: string := "clear iptables rules"

  // ------------------------------------------------------------ paths

  lemma NoSlash(name: string)
    requires name in {"tmp", "pid.lock", "nfqws.out", "nfqws.err"}
    ensures forall j :: 0 <= j < |name| ==> name[j] != '/'
  {
  }

  /** The workspace sits directly in the module directory, and the files the
      daemon launcher writes sit directly in the workspace. */
  lemma WorkspacePaths()
    ensures DirName(TMP_DIR) == MODULE_PATH
    ensures DirName(PID_LOCK) == TMP_DIR && DirName(NFQWS_OUT) == TMP_DIR && DirName(NFQWS_ERR) == TMP_DIR
    ensures Inside(PID_LOCK, TMP_DIR) && Inside(NFQWS_OUT, TMP_DIR) && Inside(NFQWS_ERR, TMP_DIR)
    ensures PID_LOCK != NFQWS_OUT && PID_LOCK != NFQWS_ERR && NFQWS_OUT != NFQWS_ERR
  {
    NoSlash("tmp");
    NoSlash("pid.lock");
    NoSlash("nfqws.out");
    NoSlash("nfqws.err");
    DirNameOfJoin(MODULE_PATH, "tmp");
    assert JoinPath(MODULE_PATH, "tmp") == TMP_DIR;
    DirNameOfJoin(TMP_DIR, "pid.lock");
    assert JoinPath(TMP_DIR, "pid.lock") == PID_LOCK;
    DirNameOfJoin(TMP_DIR, "nfqws.out");
    assert JoinPath(TMP_DIR, "nfqws.out") == NFQWS_OUT;
    DirNameOfJoin(TMP_DIR, "nfqws.err");
    assert JoinPath(TMP_DIR, "nfqws.err") == NFQWS_ERR;
    assert PID_LOCK[..|TMP_DIR|] == TMP_DIR;
    assert NFQWS_OUT[..|TMP_DIR|] == TMP_DIR;
    assert NFQWS_ERR[..|TMP_DIR|] == TMP_DIR;
    assert PID_LOCK[|TMP_DIR| + 1] != NFQWS_OUT[|TMP_DIR| + 1];
    assert PID_LOCK[|TMP_DIR| + 1] != NFQWS_ERR[|TMP_DIR| + 1];
    assert NFQWS_OUT[|TMP_DIR| + 7] != NFQWS_ERR[|TMP_DIR| + 7];
  }

  // ------------------------------------------------------------ start, step by step

  /** Wipe the workspace when it exists: remove it with everything inside and
      create it again. An absent workspace stays absent. */
  function ResetWorkspace(fs: FileSystem): (s: FsStep)
    ensures !Exists(fs, TMP_DIR) ==> s == FsStep(fs, Ok(()))
    ensures TMP_DIR in fs.files && TMP_DIR !in fs.dirs ==> s == FsStep(fs, Err(RemoveFailed(TMP_DIR)))
    ensures TMP_DIR in fs.dirs && TMP_DIR !in fs.files && MODULE_PATH in fs.dirs ==>
      && s.result.Ok?
      && (forall p :: p in s.fs.files <==> p in fs.files && !Inside(p, TMP_DIR))
      && (forall p :: p in s.fs.files ==> s.fs.files[p] == fs.files[p])
      && (forall p :: p in s.fs.dirs <==> (p in fs.dirs && !Inside(p, TMP_DIR)))
  {
    if !Exists(fs, TMP_DIR) then FsStep(fs, Ok(()))
    else
      match RemoveDirAll(fs, TMP_DIR)
      case Err(e) => FsStep(fs, Err(e))
      case Ok(fs1) =>
        WorkspacePaths();
        match CreateDirAll(fs1, TMP_DIR)
        case Err(e) => FsStep(fs1, Err(e))
        case Ok(fs2) => FsStep(fs2, Ok(()))
  }

  /** Open and read `config.json`: a missing file panics, a directory or bytes
      that are not UTF-8 are returned as errors. */
  function ReadConfigText(fs: FileSystem): (o: Outcome<string>)
    ensures o.Panicked? <==> !Exists(fs, CONFIG_PATH)
    ensures o.Panicked? ==> o.message == CONFIG_OPEN_PANIC
    ensures o.Done? <==> CONFIG_PATH in fs.files && Utf8.Valid(fs.files[CONFIG_PATH])
    ensures o.Done? ==> Utf8.Encode(o.value) == fs.files[CONFIG_PATH]
  {
    if !Exists(fs, CONFIG_PATH) then Panicked(CONFIG_OPEN_PANIC)
    else
      match ReadToString(fs, CONFIG_PATH)
      case Ok(text) => Done(text)
      case Err(e) => Failed(e)
  }

  /** Parse and decode the configuration; either failure panics. */
  function LoadConfig(text: string, parse: string -> Option<Json>): (o: Outcome<Config>)
    ensures o.Done? <==> parse(text).Some? && DecodeConfig(parse(text).value).Some?
    ensures o.Done? ==> DecodeConfig(parse(text).value) == Some(o.value)
    ensures !o.Done? ==> o == Panicked(INVALID_JSON_PANIC)
  {
    match parse(text)
    case None => Panicked(INVALID_JSON_PANIC)
    case Some(j) =>
      match DecodeConfig(j)
      case None => Panicked(INVALID_JSON_PANIC)
      case Some(c) => Done(c)
  }

  /** The strategy text: the file named by the configuration when it can be
      read as text, the built-in default otherwise. This step never fails. */
  function StrategyText(fs: FileSystem, c: Config): (t: string)
    ensures c.strategy in fs.files && Utf8.Valid(fs.files[c.strategy]) ==> Utf8.Encode(t) == fs.files[c.strategy]
    ensures !(c.strategy in fs.files && Utf8.Valid(fs.files[c.strategy])) ==> t == DEFAULT_START
  {
    match ReadToString(fs, c.strategy)
    case Ok(text) => text
    case Err(_) => DEFAULT_START
  }

  /** The two `sysctl::CtlValue` variants the code passes. */
  datatype CtlValue = CtlString(text: string) | CtlInt(number: int)

  /** `sysctl::Ctl::new(name)` then `set_value(value)`: an unknown key is an
      error, and so is a value the Linux backend cannot write, which takes
      only strings. */
  function SetSysctl(m: map<string, string>, name: string, value: CtlValue): (r: Result<map<string, string>>)
    ensures r.Ok? <==> name in m && value.CtlString?
    ensures r.Ok? ==> r.value.Keys == m.Keys && r.value[name] == value.text
    ensures r.Ok? ==> forall k | k in m && k != name :: r.value[k] == m[k]
    ensures name !in m ==> r == Err(NoSuchSysctl(name))
    ensures name in m && value.CtlInt? ==> r == Err(SysctlUnknownType)
  {
    if name !in m then Err(NoSuchSysctl(name))
    else
      match value
      case CtlString(text) => Ok(m[name := text])
      case CtlInt(_) => Err(SysctlUnknownType)
  }

  /** `daemonize_nfqws`: create the engine's output files (panicking on
      failure), then detach; on success the pid file holds the daemon's pid,
      on failure the error is only logged. The engine itself is not started. */
  function Daemonize(fs: FileSystem, daemon: Option<int>): (r: (FileSystem, Outcome<()>))
    ensures r.1.Done? <==> CanCreate(fs, NFQWS_OUT) && CanCreate(fs, NFQWS_ERR)
    ensures !r.1.Done? ==> r.1 == Panicked(UNWRAP_PANIC)
  {
    WorkspacePaths();
    match Create(fs, NFQWS_OUT)
    case Err(_) => (fs, Panicked(UNWRAP_PANIC))
    case Ok(fs1) =>
      match Create(fs1, NFQWS_ERR)
      case Err(_) => (fs1, Panicked(UNWRAP_PANIC))
      case Ok(fs2) =>
        match daemon
        case None => (fs2, Done(()))
        case Some(pid) =>
          match WriteText(fs2, PID_LOCK, FormatInt(pid))
          case Ok(fs3) => (fs3, Done(()))
          case Err(_) => (fs2, Done(()))
  }

  /** The part of `start_service` after the configuration is loaded: strategy
      text, list merge and substitution, then the launch. */
  function StartWith(w: World, c: Config, daemon: Option<int>): (r: Run)
    ensures r.world.procs == w.procs && r.world.root == w.root
  {
    var start := StrategyText(w.fs, c);
    var (fs1, merged) := MergeLists(w.fs, c.listType, c);
    var w1 := w.(fs := fs1);
    if !merged.Done? then Run(w1, Propagate(merged), None)
    else LaunchDaemon(w1, Substitute(start, merged.value.0, merged.value.1, ZAPRETT_DIR_PATH), daemon)
  }

  /** The end of `start_service` once the strategy is substituted: the kernel
      parameter, the rules (panicking on failure), the daemon. */
  function LaunchDaemon(w: World, strategy: string, daemon: Option<int>): (r: Run)
    ensures r.world.procs == w.procs && r.world.root == w.root
    ensures r.strategy.Some? ==> r.strategy == Some(strategy)
    ensures r.outcome.Done? ==> r.strategy == Some(strategy)
  {
    match SetSysctl(w.sysctls, CONNTRACK_LIBERAL, CtlString("1"))
    case Err(e) => Run(w, Failed(e), None)
    case Ok(sys) =>
      var setup := Setup(w.net);
      var w1 := w.(sysctls := sys, net := setup.net);
      if setup.result.Err? then Run(w1, Panicked(SETUP_PANIC), None)
      else
        var (fs1, launched) := Daemonize(w1.fs, daemon);
        Run(w1.(fs := fs1), launched, Some(strategy))
  }

  /** `start_service`. Nothing checks whether the service already runs. */
  function Start(w: World, parse: string -> Option<Json>, daemon: Option<int>): (r: Run)
    ensures !w.root ==> r == Run(w, Failed(NotRoot), None)
    ensures r.world.procs == w.procs
  {
    if !w.root then Run(w, Failed(NotRoot), None)
    else
      var reset := ResetWorkspace(w.fs);
      var w1 := w.(fs := reset.fs);
      if reset.result.Err? then Run(w1, Failed(reset.result.error), None)
      else
        match ReadConfig(w1.fs, parse)
        case Failed(e) => Run(w1, Failed(e), None)
        case Panicked(m) => Run(w1, Panicked(m), None)
        case Done(c) => StartWith(w1, c, daemon)
  }

  /** Read `config.json`, then parse and decode it; the first failure ends it. */
  function ReadConfig(fs: FileSystem, parse: string -> Option<Json>): Outcome<Config> {
    match ReadConfigText(fs)
    case Failed(e) => Failed(e)
    case Panicked(m) => Panicked(m)
    case Done(text) => LoadConfig(text, parse)
  }

  // ------------------------------------------------------------ stop, restart, status

  /** `kill(pid, SIGKILL)` as root: the process disappears, or the call fails
      with ESRCH when there is no such process. */
  function Kill(procs: map<int, string>, pid: int): (r: Result<map<int, string>>)
    ensures r.Ok? <==> pid > 0 && pid in procs
    ensures r.Ok? ==> r.value == procs - {pid}
    ensures r.Err? ==> r.error == NoSuchProcess(pid)
  {
    if pid > 0 && pid in procs then Ok(procs - {pid}) else Err(NoSuchProcess(pid))
  }

  /** `stop_service`: clear the rules (panicking on failure), then read and
      parse the pid file and kill that process. */
  function Stop(w: World): (r: Run)
    ensures !w.root ==> r == Run(w, Failed(NotRoot), None)
    ensures r.strategy.None? && r.world.fs == w.fs && r.world.sysctls == w.sysctls
  {
    if !w.root then Run(w, Failed(NotRoot), None)
    else
      var cleared := Clear(w.net);
      var w1 := w.(net := cleared.net);
      if cleared.result.Err? then Run(w1, Panicked(CLEAR_PANIC), None)
      else KillRecorded(w1)
  }

  /** The second half of `stop_service`: read and parse the pid file, kill
      that process. Only the process table can change. */
  function KillRecorded(w: World): (r: Run)
    ensures r.strategy.None? && r.world == w.(procs := r.world.procs)
  {
    match ReadToString(w.fs, PID_LOCK)
    case Err(e) => Run(w, Failed(e), None)
    case Ok(text) =>
      match ParseI32(Trim(text))
      case None => Run(w, Failed(ParseIntFailed), None)
      case Some(pid) =>
        match Kill(w.procs, pid)
        case Err(e) => Run(w, Failed(e), None)
        case Ok(procs) => Run(w.(procs := procs), Done(()), None)
  }

  /** `restart_service`: stop, then start; a stop that does not succeed ends
      the restart with its result. */
  function Restart(w: World, parse: string -> Option<Json>, daemon: Option<int>): (r: Run)
    ensures !w.root ==> r == Run(w, Failed(NotRoot), None)
  {
    if !w.root then Run(w, Failed(NotRoot), None)
    else
      var stopped := Stop(w);
      if !stopped.outcome.Done? then stopped
      else Start(stopped.world, parse, daemon)
  }

  const USIZE_MODULUS: int := 0x1_0000_0000_0000_0000

  /** `pid as usize` for an i32 pid: negative values wrap around. */
  function AsUsize(pid: int): (u: nat)
    requires I32_MIN <= pid <= I32_MAX
    ensures u < USIZE_MODULUS && u % USIZE_MODULUS == pid % USIZE_MODULUS
  {
    if pid < 0 then pid + USIZE_MODULUS else pid
  }

  /** `service_status`: whether the pid in the pid file names a live process
      called "zaprett". A missing or unparsable pid file means not running. */
  function Status(w: World): (o: Outcome<bool>)
    ensures !w.root <==> o == Failed(NotRoot)
    ensures o.Failed? ==> !w.root
  {
    if !w.root then Failed(NotRoot)
    else
      match ReadToString(w.fs, PID_LOCK)
      case Err(_) => Done(false)
      case Ok(text) =>
        match ParseI32(Trim(text))
        case None => Done(false)
        case Some(pid) =>
          var key := AsUsize(pid);
          Done(key in w.procs && w.procs[key] == PROCESS_NAME)
  }

  // ------------------------------------------------------------ properties

  /** Every entry point refuses a caller that is not root before doing
      anything else. */
  lemma RootGate(w: World, parse: string -> Option<Json>, daemon: Option<int>)
    requires !w.root
    ensures Start(w, parse, daemon) == Run(w, Failed(NotRoot), None)
    ensures Stop(w) == Run(w, Failed(NotRoot), None)
    ensures Restart(w, parse, daemon) == Run(w, Failed(NotRoot), None)
    ensures Status(w) == Failed(NotRoot)
  {
  }

  /** A workspace with nothing inside it. */
  predicate FreshWorkspace(fs: FileSystem) {
    && TMP_DIR in fs.dirs && TMP_DIR !in fs.files
    && (forall p :: p in fs.files ==> !Inside(p, TMP_DIR))
    && (forall p :: p in fs.dirs ==> !Inside(p, TMP_DIR))
  }

  /** An existing workspace is emptied and kept; files and directories
      outside it are untouched. */
  lemma ResetEmptiesWorkspace(fs: FileSystem)
    requires TMP_DIR in fs.dirs && TMP_DIR !in fs.files && MODULE_PATH in fs.dirs
    ensures var s := ResetWorkspace(fs);
      && s.result.Ok? && FreshWorkspace(s.fs)
      && (forall p | p in fs.files && !Inside(p, TMP_DIR) :: p in s.fs.files && s.fs.files[p] == fs.files[p])
      && (forall p | p in fs.dirs && !Inside(p, TMP_DIR) :: p in s.fs.dirs)
  {
    assert !Inside(TMP_DIR, TMP_DIR);
  }

  /** When the configuration file holds text the parser accepts and that
      decodes to `c`, start goes on with `c` in the wiped workspace. */
  lemma StartLoadsConfig(w: World, parse: string -> Option<Json>, daemon: Option<int>, text: string, c: Config)
    requires w.root && TMP_DIR in w.fs.dirs && TMP_DIR !in w.fs.files && MODULE_PATH in w.fs.dirs
    requires CONFIG_PATH in w.fs.files && w.fs.files[CONFIG_PATH] == Utf8.Encode(text)
    requires parse(text).Some? && DecodeConfig(parse(text).value) == Some(c)
    ensures Start(w, parse, daemon) == StartWith(w.(fs := ResetWorkspace(w.fs).fs), c, daemon)
  {
    ResetKeepsConfig(w.fs);
    ConfigLoads(ResetWorkspace(w.fs).fs, parse, text, c);
    StartAfterReset(w, parse, daemon, c);
  }

  /** Start goes on with whatever configuration loads from the wiped workspace. */
  lemma StartAfterReset(w: World, parse: string -> Option<Json>, daemon: Option<int>, c: Config)
    requires w.root && ResetWorkspace(w.fs).result.Ok?
    requires ReadConfig(ResetWorkspace(w.fs).fs, parse) == Done(c)
    ensures Start(w, parse, daemon) == StartWith(w.(fs := ResetWorkspace(w.fs).fs), c, daemon)
  {
  }

  /** Wiping an existing workspace keeps the configuration file as it was. */
  lemma ResetKeepsConfig(fs: FileSystem)
    requires TMP_DIR in fs.dirs && TMP_DIR !in fs.files && MODULE_PATH in fs.dirs
    requires CONFIG_PATH in fs.files
    ensures var s := ResetWorkspace(fs);
      s.result.Ok? && CONFIG_PATH in s.fs.files && s.fs.files[CONFIG_PATH] == fs.files[CONFIG_PATH]
  {
    assert !Inside(CONFIG_PATH, TMP_DIR) by {
      assert CONFIG_PATH[1] != TMP_DIR[1];
    }
  }

  /** A configuration file holding `text` that parses and decodes to `c` loads as `c`. */
  lemma ConfigLoads(fs: FileSystem, parse: string -> Option<Json>, text: string, c: Config)
    requires CONFIG_PATH in fs.files && fs.files[CONFIG_PATH] == Utf8.Encode(text)
    requires parse(text).Some? && DecodeConfig(parse(text).value) == Some(c)
    ensures ReadConfigText(fs) == Done(text) && ReadConfig(fs, parse) == Done(c)
  {
    ReadBackText(fs, CONFIG_PATH, text);
    Utf8.DecodeEncode(text);
  }

  /** Start with an absent workspace panics in the first merge and leaves the
      world exactly as it was: no kernel parameter, no rule, no file. */
  lemma StartWithoutWorkspace(w: World, parse: string -> Option<Json>, daemon: Option<int>,
                              text: string, c: Config)
    requires w.root && !Exists(w.fs, TMP_DIR)
    requires CONFIG_PATH in w.fs.files && w.fs.files[CONFIG_PATH] == Utf8.Encode(text)
    requires parse(text).Some? && DecodeConfig(parse(text).value) == Some(c)
    ensures Start(w, parse, daemon) == Run(w, Panicked(UNWRAP_PANIC), None)
  {
    ConfigLoads(w.fs, parse, text, c);
    MergeListsWithoutWorkspace(w.fs, c.listType, c);
    assert w.(fs := w.fs) == w;
  }

  /** What a start needs to go all the way: a fresh workspace, every list
      file of the selected mode present, the kernel parameter known, and the
      three chains available. */
  predicate Prepared(w: World, c: Config) {
    var s := Select(c.listType, c);
    && FreshWorkspace(w.fs)
    && AllFiles(w.fs, s.hostFiles) && AllFiles(w.fs, s.ipsetFiles)
    && CONNTRACK_LIBERAL in w.sysctls
    && w.net.available && HasChains(w.net)
  }

  /** The merge step of a prepared start: both merged files written, the
      workspace still free of directories. */
  lemma PreparedMerge(w: World, c: Config)
    requires Prepared(w, c)
    ensures var s := Select(c.listType, c);
      var fs1 := w.fs.(files := w.fs.files[s.hostPath := Contents(w.fs, s.hostFiles)]
                                           [s.ipsetPath := Contents(w.fs, s.ipsetFiles)]);
      MergeLists(w.fs, c.listType, c) == (fs1, Done((s.hostFlag, s.ipsetFlag)))
  {
    var s := Select(c.listType, c);
    SelectPathsInWorkspace(c.listType, c);
    assert s.hostPath !in s.hostFiles by {
      forall i | 0 <= i < |s.hostFiles| ensures s.hostFiles[i] != s.hostPath {
        assert s.hostFiles[i] in w.fs.files;
      }
    }
    assert s.hostPath !in s.ipsetFiles && s.ipsetPath !in s.ipsetFiles by {
      forall i | 0 <= i < |s.ipsetFiles| ensures s.ipsetFiles[i] != s.hostPath && s.ipsetFiles[i] != s.ipsetPath {
        assert s.ipsetFiles[i] in w.fs.files;
      }
    }
    MergeListsSuccess(w.fs, c.listType, c);
  }

  /** In a workspace without directories in the way, the launcher creates
      its two output files, writes the pid file, and touches nothing else. */
  lemma DaemonizeInWorkspace(fs: FileSystem, daemon: Option<int>)
    requires TMP_DIR in fs.dirs && NFQWS_OUT !in fs.dirs && NFQWS_ERR !in fs.dirs && PID_LOCK !in fs.dirs
    ensures var r := Daemonize(fs, daemon);
      && r.1 == Done(())
      && r.0.dirs == fs.dirs
      && (forall p | p in fs.files && p != NFQWS_OUT && p != NFQWS_ERR && p != PID_LOCK ::
            p in r.0.files && r.0.files[p] == fs.files[p])
      && (daemon.Some? ==> ReadToString(r.0, PID_LOCK) == Ok(FormatInt(daemon.value)))
  {
    WorkspacePaths();
  }

  /** The merged list files are neither the engine's output files nor the pid file. */
  lemma MergedPathsApart(t: ListType, c: Config)
    ensures var s := Select(t, c);
      && s.hostPath != NFQWS_OUT && s.hostPath != NFQWS_ERR && s.hostPath != PID_LOCK
      && s.ipsetPath != NFQWS_OUT && s.ipsetPath != NFQWS_ERR && s.ipsetPath != PID_LOCK
  {
    var s := Select(t, c);
    var k := |TMP_DIR| + 1;
    SelectPathsInWorkspace(t, c);
    SuffixNames(t);
    assert s.hostPath[k] == 'h' && s.ipsetPath[k] == 'i';
    assert PID_LOCK[k] == 'p' && NFQWS_OUT[k] == 'n' && NFQWS_ERR[k] == 'n';
  }

  /** With the kernel parameter known, the chains in place and no directory
      where the launcher writes, the launch succeeds: the parameter becomes
      "1", the rules of one setup are installed, the launcher writes its files. */
  lemma LaunchSucceeds(w: World, strategy: string, daemon: Option<int>)
    requires CONNTRACK_LIBERAL in w.sysctls && w.net.available && HasChains(w.net)
    requires TMP_DIR in w.fs.dirs && NFQWS_OUT !in w.fs.dirs && NFQWS_ERR !in w.fs.dirs && PID_LOCK !in w.fs.dirs
    ensures LaunchDaemon(w, strategy, daemon)
         == Run(w.(sysctls := w.sysctls[CONNTRACK_LIBERAL := "1"], net := Setup(w.net).net, fs := Daemonize(w.fs, daemon).0),
                Done(()), Some(strategy))
  {
    SetupEffect(w.net);
    DaemonizeInWorkspace(w.fs, daemon);
  }

  /** A prepared start succeeds: the kernel parameter is "1", the rules of
      one setup are installed, the process table is untouched, and the daemon
      was handed the substituted strategy. The files it leaves are described
      by `StartWithFiles`. */
  lemma StartWithSucceeds(w: World, c: Config, daemon: Option<int>)
    requires Prepared(w, c)
    ensures var r := StartWith(w, c, daemon);
      var s := Select(c.listType, c);
      && r.outcome == Done(())
      && r.world.root == w.root
      && r.world.sysctls == w.sysctls[CONNTRACK_LIBERAL := "1"]
      && r.world.net == Setup(w.net).net
      && r.world.procs == w.procs
      && r.strategy == Some(Substitute(StrategyText(w.fs, c), s.hostFlag, s.ipsetFlag, ZAPRETT_DIR_PATH))
      && r.world.fs == Daemonize(MergeLists(w.fs, c.listType, c).0, daemon).0
  {
    var s := Select(c.listType, c);
    PreparedMerge(w, c);
    WorkspacePaths();
    var fs1 := MergeLists(w.fs, c.listType, c).0;
    assert fs1.dirs == w.fs.dirs;
    LaunchSucceeds(w.(fs := fs1), Substitute(StrategyText(w.fs, c), s.hostFlag, s.ipsetFlag, ZAPRETT_DIR_PATH), daemon);
  }

  /** After a prepared start the merged files hold their lists' contents and
      the pid file holds the daemon's pid. */
  lemma StartWithFiles(w: World, c: Config, daemon: Option<int>)
    requires Prepared(w, c)
    ensures var fs := StartWith(w, c, daemon).world.fs;
      var s := Select(c.listType, c);
      && s.hostPath in fs.files && fs.files[s.hostPath] == Contents(w.fs, s.hostFiles)
      && s.ipsetPath in fs.files && fs.files[s.ipsetPath] == Contents(w.fs, s.ipsetFiles)
      && (daemon.Some? ==> ReadToString(fs, PID_LOCK) == Ok(FormatInt(daemon.value)))
  {
    var s := Select(c.listType, c);
    var fs1 := MergeLists(w.fs, c.listType, c).0;
    PreparedMergeFiles(w, c);
    DaemonizeInWorkspace(fs1, daemon);
    MergedPathsApart(c.listType, c);
    StartWithSucceeds(w, c, daemon);
  }

  /** After the merge of a prepared start the merged files hold their
      lists' contents, and no directory stands where the launcher writes. */
  lemma PreparedMergeFiles(w: World, c: Config)
    requires Prepared(w, c)
    ensures var fs1 := MergeLists(w.fs, c.listType, c).0;
      var s := Select(c.listType, c);
      && s.hostPath in fs1.files && fs1.files[s.hostPath] == Contents(w.fs, s.hostFiles)
      && s.ipsetPath in fs1.files && fs1.files[s.ipsetPath] == Contents(w.fs, s.ipsetFiles)
      && TMP_DIR in fs1.dirs && NFQWS_OUT !in fs1.dirs && NFQWS_ERR !in fs1.dirs && PID_LOCK !in fs1.dirs
  {
    PreparedMerge(w, c);
    SelectPathsInWorkspace(c.listType, c);
    WorkspacePaths();
  }

  /** A pid file holding the decimal text of a positive pid makes the status
      the liveness of that pid under the expected name. */
  lemma StatusOfRecordedPid(w: World, pid: int)
    requires w.root && 0 < pid <= I32_MAX && ReadToString(w.fs, PID_LOCK) == Ok(FormatInt(pid))
    ensures Status(w) == Done(pid in w.procs && w.procs[pid] == PROCESS_NAME)
  {
    var text := FormatInt(pid);
    assert w.fs.files[PID_LOCK] == Utf8.Encode(text);
    TrimNoWhitespace(text);
    ParseFormat(pid);
    assert ParseI32(Trim(text)) == Some(pid);
    StatusReadsPidFile(w, text);
  }

  /** Right after a start the status is decided by the process table alone:
      the daemon's pid is read back from the pid file and must name a process
      called "zaprett". Start itself adds no process. */
  lemma StartThenStatus(w: World, c: Config, pid: int)
    requires w.root && Prepared(w, c) && 0 < pid <= I32_MAX
    ensures Status(StartWith(w, c, Some(pid)).world) == Done(pid in w.procs && w.procs[pid] == PROCESS_NAME)
  {
    var w1 := StartWith(w, c, Some(pid)).world;
    StartWithSucceeds(w, c, Some(pid));
    StartWithFiles(w, c, Some(pid));
    StatusOfRecordedPid(w1, pid);
  }

  /** A start that gets through has installed the rules of exactly one setup. */
  lemma StartInstallsRules(w: World, parse: string -> Option<Json>, daemon: Option<int>)
    requires Start(w, parse, daemon).outcome.Done?
    ensures Setup(w.net).result.Ok? && Start(w, parse, daemon).world.net == Setup(w.net).net
  {
    var w1 := w.(fs := ResetWorkspace(w.fs).fs);
    match ReadConfig(w1.fs, parse)
    case Done(c) => StartWithInstallsRules(w1, c, daemon);
    case Failed(_) =>
    case Panicked(_) =>
  }

  /** The same for the part of start after the configuration is loaded. */
  lemma StartWithInstallsRules(w: World, c: Config, daemon: Option<int>)
    requires StartWith(w, c, daemon).outcome.Done?
    ensures Setup(w.net).result.Ok? && StartWith(w, c, daemon).world.net == Setup(w.net).net
  {
    var (fs1, merged) := MergeLists(w.fs, c.listType, c);
    if merged.Done? {
      var start := Substitute(StrategyText(w.fs, c), merged.value.0, merged.value.1, ZAPRETT_DIR_PATH);
      LaunchInstallsRules(w.(fs := fs1), start, daemon);
    }
  }

  /** The same for the launch. */
  lemma LaunchInstallsRules(w: World, strategy: string, daemon: Option<int>)
    requires LaunchDaemon(w, strategy, daemon).outcome.Done?
    ensures Setup(w.net).result.Ok? && LaunchDaemon(w, strategy, daemon).world.net == Setup(w.net).net
  {
  }

  /** Start does not check whether the service already runs, so two starts
      in a row install every rule twice. */
  lemma StartTwiceDuplicatesRules(w: World, w1: World, parse: string -> Option<Json>, first: Option<int>, second: Option<int>)
    requires w.net.available && HasChains(w.net)
    requires Start(w, parse, first).outcome.Done? && w1 == Start(w, parse, first).world
    requires Start(w1, parse, second).outcome.Done?
    ensures var n := Start(w1, parse, second).world.net;
      && HasChains(n)
      && n.chains[MANGLE_POST] == [RULE, RULE] + w.net.chains[MANGLE_POST]
      && n.chains[MANGLE_PRE] == [RULE, RULE] + w.net.chains[MANGLE_PRE]
      && n.chains[FILTER_FORWARD] == w.net.chains[FILTER_FORWARD] + [RULE, RULE]
  {
    StartInstallsRules(w, parse, first);
    StartInstallsRules(w1, parse, second);
    var n := Start(w1, parse, second).world.net;
    assert n == Setup(Setup(w.net).net).net;
    SetupTwiceDuplicates(w.net, n);
  }

  /** Stop clears the rules first: when that fails it panics, keeping
      whatever deletions already happened, and reads nothing. */
  lemma StopClearFails(w: World)
    requires w.root && Clear(w.net).result.Err?
    ensures Stop(w) == Run(w.(net := Clear(w.net).net), Panicked(CLEAR_PANIC), None)
  {
  }

  /** Stopping when no rule is installed panics and changes nothing. */
  lemma StopWithoutRules(w: World)
    requires w.root && w.net.available && MANGLE_POST in w.net.chains && RULE !in w.net.chains[MANGLE_POST]
    ensures Stop(w) == Run(w, Panicked(CLEAR_PANIC), None)
  {
    ClearWithoutRules(w.net);
    assert w.(net := w.net) == w;
  }

  /** A missing pid file is an error raised after the rules are already gone. */
  lemma StopWithoutPidFile(w: World)
    requires w.root && Clear(w.net).result.Ok? && !Exists(w.fs, PID_LOCK)
    ensures Stop(w) == Run(w.(net := Clear(w.net).net), Failed(OpenFailed(PID_LOCK)), None)
  {
  }

  /** A pid file whose trimmed text is not a 32-bit integer is a parse error
      raised after the rules are already gone. */
  lemma StopUnparsablePid(w: World, text: string)
    requires w.root && Clear(w.net).result.Ok?
    requires PID_LOCK in w.fs.files && w.fs.files[PID_LOCK] == Utf8.Encode(text)
    requires ParseI32(Trim(text)).None?
    ensures Stop(w) == Run(w.(net := Clear(w.net).net), Failed(ParseIntFailed), None)
  {
    ReadBackText(w.fs, PID_LOCK, text);
  }

  /** With the rules cleared and a pid file naming a live process, stop kills
      exactly that process. */
  lemma StopKillsRecordedPid(w: World, text: string, pid: int)
    requires w.root && Clear(w.net).result.Ok?
    requires PID_LOCK in w.fs.files && w.fs.files[PID_LOCK] == Utf8.Encode(text)
    requires ParseI32(Trim(text)) == Some(pid) && pid > 0 && pid in w.procs
    ensures Stop(w) == Run(w.(net := Clear(w.net).net, procs := w.procs - {pid}), Done(()), None)
  {
    ReadBackText(w.fs, PID_LOCK, text);
  }

  /** Restart is stop followed by start, and a stop that does not succeed
      means start never runs. */
  lemma RestartSequence(w: World, parse: string -> Option<Json>, daemon: Option<int>)
    requires w.root
    ensures !Stop(w).outcome.Done? ==> Restart(w, parse, daemon) == Stop(w)
    ensures Stop(w).outcome.Done? ==> Restart(w, parse, daemon) == Start(Stop(w).world, parse, daemon)
  {
  }

  /** No readable pid file means not running. */
  lemma StatusWithoutPidFile(w: World)
    requires w.root && !(PID_LOCK in w.fs.files && Utf8.Valid(w.fs.files[PID_LOCK]))
    ensures Status(w) == Done(false)
  {
  }

  /** The status is decided by the pid file's trimmed text: unparsable means
      not running, otherwise the process with that pid (taken as an unsigned
      machine word) must be called "zaprett". */
  lemma StatusReadsPidFile(w: World, text: string)
    requires w.root && PID_LOCK in w.fs.files && w.fs.files[PID_LOCK] == Utf8.Encode(text)
    ensures ParseI32(Trim(text)).None? ==> Status(w) == Done(false)
    ensures ParseI32(Trim(text)).Some? ==>
      var key := AsUsize(ParseI32(Trim(text)).value);
      Status(w) == Done(key in w.procs && w.procs[key] == PROCESS_NAME)
  {
    ReadBackText(w.fs, PID_LOCK, text);
  }

  /** A negative pid wraps to a key above every real pid: the status is
      "not running" whatever the table holds below 2^63. */
  lemma StatusNegativePid(w: World, text: string)
    requires w.root && PID_LOCK in w.fs.files && w.fs.files[PID_LOCK] == Utf8.Encode(text)
    requires ParseI32(Trim(text)).Some? && ParseI32(Trim(text)).value < 0
    requires forall p | p in w.procs :: p < 0x8000_0000_0000_0000
    ensures Status(w) == Done(false)
  {
    StatusReadsPidFile(w, text);
  }
}
