/**
 The two stand-alone binaries that predate the library: the crate binary
 (`rust/crates/zaprett/src/main.rs`) and the root binary (`rust/src/main.rs`).
 Both carry their own configuration type, their own all-or-nothing list
 merge, and a start and stop that end in `todo!()`. They differ in the paths
 they use, in one flag, and in what they do without a subcommand.

 Neither checks for root. The world and the parameters are those of the
 library model.
 */
module Legacy {
  import opened Common
  import opened Text
  import opened FileSystem
  import opened Merge
  import opened Config
  import opened Template
  import opened Iptables
  import opened Engine
  import Utf8
  import Service
  import Autostart
  import Commands

  datatype Binary = CrateBinary | RootBinary

  // ------------------------------------------------------------ configuration

  /** The binaries' `Config`: every field required, the list mode, strategy
      path and application list as plain strings. */
  datatype LegacyConfig = LegacyConfig(
    activeLists: seq<string>,
    activeIpsets: seq<string>,
    activeExcludeLists: seq<string>,
    activeExcludeIpsets: seq<string>,
    listType: string,
    strategy: string,
    appList: string,
    whitelist: seq<string>,
    blacklist: seq<string>)

  const LEGACY_FIELDS: set<string> := {
    "active_lists", "active_ipsets", "active_exclude_lists", "active_exclude_ipsets",
    "list_type", "strategy", "app_list", "whitelist", "blacklist"}

  /** The number of fields, and so the length of the array form. */
  const LEGACY_FIELD_COUNT: nat := 9

  /** The value stored for each field, if any, before it is decoded: by key
      in an object, by position (in declaration order) in an array. */
  datatype LegacySlots = LegacySlots(
    activeLists: Option<Json>,
    activeIpsets: Option<Json>,
    activeExcludeLists: Option<Json>,
    activeExcludeIpsets: Option<Json>,
    listType: Option<Json>,
    strategy: Option<Json>,
    appList: Option<Json>,
    whitelist: Option<Json>,
    blacklist: Option<Json>)

  function LegacyObjectSlots(o: map<string, Json>): LegacySlots {
    LegacySlots(Get(o, "active_lists"), Get(o, "active_ipsets"), Get(o, "active_exclude_lists"),
                Get(o, "active_exclude_ipsets"), Get(o, "list_type"), Get(o, "strategy"),
                Get(o, "app_list"), Get(o, "whitelist"), Get(o, "blacklist"))
  }

  function LegacyArraySlots(items: seq<Json>): LegacySlots {
    LegacySlots(At(items, 0), At(items, 1), At(items, 2), At(items, 3), At(items, 4),
                At(items, 5), At(items, 6), At(items, 7), At(items, 8))
  }

  /** A required field: missing or of the wrong shape is an error. */
  function RequiredStrings(v: Option<Json>): Option<seq<string>> {
    if v.Some? then DecodeStrings(v.value) else None
  }

  function RequiredString(v: Option<Json>): Option<string> {
    if v.Some? then DecodeString(v.value) else None
  }

  function DecodeLegacySlots(s: LegacySlots): Option<LegacyConfig> {
    var al := RequiredStrings(s.activeLists);
    var ai := RequiredStrings(s.activeIpsets);
    var ael := RequiredStrings(s.activeExcludeLists);
    var aei := RequiredStrings(s.activeExcludeIpsets);
    var lt := RequiredString(s.listType);
    var sg := RequiredString(s.strategy);
    var ap := RequiredString(s.appList);
    var wl := RequiredStrings(s.whitelist);
    var bl := RequiredStrings(s.blacklist);
    if al.Some? && ai.Some? && ael.Some? && aei.Some? && lt.Some? && sg.Some? && ap.Some?
       && wl.Some? && bl.Some?
    then Some(LegacyConfig(al.value, ai.value, ael.value, aei.value, lt.value, sg.value,
                           ap.value, wl.value, bl.value))
    else None
  }

  /** Deserialising the stored value with every field required: from an
      object by key, ignoring keys the type does not know, or from an array
      of exactly one element per field, by position. Any other value is an
      error. */
  function DecodeLegacy(j: Json): Option<LegacyConfig> {
    match j
    case JObject(o) => DecodeLegacySlots(LegacyObjectSlots(o))
    case JArray(items) =>
      if |items| == LEGACY_FIELD_COUNT then DecodeLegacySlots(LegacyArraySlots(items)) else None
    case _ => None
  }

  function EncodeLegacy(c: LegacyConfig): (j: Json)
    ensures j.JObject?
  {
    JObject(map[
      "active_lists" := JArray(EncodeStrings(c.activeLists)),
      "active_ipsets" := JArray(EncodeStrings(c.activeIpsets)),
      "active_exclude_lists" := JArray(EncodeStrings(c.activeExcludeLists)),
      "active_exclude_ipsets" := JArray(EncodeStrings(c.activeExcludeIpsets)),
      "list_type" := JString(c.listType),
      "strategy" := JString(c.strategy),
      "app_list" := JString(c.appList),
      "whitelist" := JArray(EncodeStrings(c.whitelist)),
      "blacklist" := JArray(EncodeStrings(c.blacklist))])
  }

  /** Every field is written, under its key, and nothing else. */
  lemma EncodeLegacyWritesEveryField(c: LegacyConfig)
    ensures EncodeLegacy(c).fields.Keys == LEGACY_FIELDS
  {
  }

  lemma EncodedLegacyLookups(c: LegacyConfig)
    ensures var o := EncodeLegacy(c).fields;
      && o["active_lists"] == JArray(EncodeStrings(c.activeLists))
      && o["active_ipsets"] == JArray(EncodeStrings(c.activeIpsets))
      && o["active_exclude_lists"] == JArray(EncodeStrings(c.activeExcludeLists))
      && o["active_exclude_ipsets"] == JArray(EncodeStrings(c.activeExcludeIpsets))
      && o["list_type"] == JString(c.listType)
      && o["strategy"] == JString(c.strategy)
      && o["app_list"] == JString(c.appList)
      && o["whitelist"] == JArray(EncodeStrings(c.whitelist))
      && o["blacklist"] == JArray(EncodeStrings(c.blacklist))
  {
    EncodedLegacyListLookups(c);
    EncodedLegacyOtherLookups(c);
  }

  lemma EncodedLegacyListLookups(c: LegacyConfig)
    ensures var o := EncodeLegacy(c).fields;
      && o["active_lists"] == JArray(EncodeStrings(c.activeLists))
      && o["active_ipsets"] == JArray(EncodeStrings(c.activeIpsets))
      && o["active_exclude_lists"] == JArray(EncodeStrings(c.activeExcludeLists))
      && o["active_exclude_ipsets"] == JArray(EncodeStrings(c.activeExcludeIpsets))
  {
  }

  lemma EncodedLegacyOtherLookups(c: LegacyConfig)
    ensures var o := EncodeLegacy(c).fields;
      && o["list_type"] == JString(c.listType)
      && o["strategy"] == JString(c.strategy)
      && o["app_list"] == JString(c.appList)
      && o["whitelist"] == JArray(EncodeStrings(c.whitelist))
      && o["blacklist"] == JArray(EncodeStrings(c.blacklist))
  {
  }

  /** What the binaries write they read back unchanged. */
  lemma LegacyDecodeEncode(c: LegacyConfig)
    ensures DecodeLegacy(EncodeLegacy(c)) == Some(c)
  {
    LegacyObjectAndArrayAgree(c);
    LegacyDecodeEncodePositional(c);
  }

  /** Every field is required: an object missing any of them is rejected. */
  lemma LegacyNeedsEveryField(o: map<string, Json>)
    requires DecodeLegacy(JObject(o)).Some?
    ensures LEGACY_FIELDS <= o.Keys
  {
  }

  /** A `LegacyConfig` as an array: the values the object form stores, in
      the order the fields are declared. */
  function EncodeLegacyPositional(c: LegacyConfig): (items: seq<Json>)
    ensures |items| == LEGACY_FIELD_COUNT
  {
    [JArray(EncodeStrings(c.activeLists)), JArray(EncodeStrings(c.activeIpsets)),
     JArray(EncodeStrings(c.activeExcludeLists)), JArray(EncodeStrings(c.activeExcludeIpsets)),
     JString(c.listType), JString(c.strategy), JString(c.appList),
     JArray(EncodeStrings(c.whitelist)), JArray(EncodeStrings(c.blacklist))]
  }

  /** The object and the array form hold the same value for every field. */
  lemma LegacyObjectAndArrayAgree(c: LegacyConfig)
    ensures LegacyObjectSlots(EncodeLegacy(c).fields) == LegacyArraySlots(EncodeLegacyPositional(c))
  {
    EncodeLegacyWritesEveryField(c);
    EncodedLegacyLookups(c);
  }

  /** The array form is read back unchanged too. */
  lemma LegacyDecodeEncodePositional(c: LegacyConfig)
    ensures DecodeLegacy(JArray(EncodeLegacyPositional(c))) == Some(c)
  {
    DecodeEncodeStrings(c.activeLists);
    DecodeEncodeStrings(c.activeIpsets);
    DecodeEncodeStrings(c.activeExcludeLists);
    DecodeEncodeStrings(c.activeExcludeIpsets);
    DecodeEncodeStrings(c.whitelist);
    DecodeEncodeStrings(c.blacklist);
  }

  /** Every field is required in the array form as well: an array with an
      element fewer or an element more is rejected. */
  lemma LegacyArrayNeedsEveryField(items: seq<Json>)
    requires DecodeLegacy(JArray(items)).Some?
    ensures |items| == LEGACY_FIELD_COUNT
  {
  }

  /** An empty array, unlike for the library, is an error. */
  lemma LegacyEmptyArrayFails()
    ensures DecodeLegacy(JArray([])) == None
  {
  }

  /** Only an object or an array can be a configuration. */
  lemma LegacyScalarFails(j: Json)
    requires !j.JObject? && !j.JArray?
    ensures DecodeLegacy(j) == None
  {
  }

  /** A file the library wrote is read by the binaries with the same lists,
      strategy path and list mode; the mode and the application list arrive
      under their lowercase names. */
  lemma ReadsLibraryFile(c: Config)
    ensures var d := DecodeLegacy(EncodeConfig(c));
      && d.Some?
      && d.value.activeLists == c.activeLists && d.value.activeIpsets == c.activeIpsets
      && d.value.activeExcludeLists == c.activeExcludeLists
      && d.value.activeExcludeIpsets == c.activeExcludeIpsets
      && d.value.whitelist == c.whitelist && d.value.blacklist == c.blacklist
      && d.value.strategy == c.strategy
      && JString(d.value.listType) == EncodeListType(c.listType)
      && JString(d.value.appList) == EncodeApplistType(c.appList)
  {
    LibraryListFields(c);
    LibraryTextFields(c);
  }

  lemma LibraryListFields(c: Config)
    ensures var o := EncodeConfig(c).fields;
      && RequiredStrings(Get(o, "active_lists")) == Some(c.activeLists)
      && RequiredStrings(Get(o, "active_ipsets")) == Some(c.activeIpsets)
      && RequiredStrings(Get(o, "active_exclude_lists")) == Some(c.activeExcludeLists)
      && RequiredStrings(Get(o, "active_exclude_ipsets")) == Some(c.activeExcludeIpsets)
      && RequiredStrings(Get(o, "whitelist")) == Some(c.whitelist)
      && RequiredStrings(Get(o, "blacklist")) == Some(c.blacklist)
  {
    EncodedLookups(c);
    DecodeEncodeStrings(c.activeLists);
    DecodeEncodeStrings(c.activeIpsets);
    DecodeEncodeStrings(c.activeExcludeLists);
    DecodeEncodeStrings(c.activeExcludeIpsets);
    DecodeEncodeStrings(c.whitelist);
    DecodeEncodeStrings(c.blacklist);
  }

  lemma LibraryTextFields(c: Config)
    ensures var o := EncodeConfig(c).fields;
      && RequiredString(Get(o, "strategy")) == Some(c.strategy)
      && RequiredString(Get(o, "list_type")).Some? && JString(RequiredString(Get(o, "list_type")).value) == EncodeListType(c.listType)
      && RequiredString(Get(o, "app_list")).Some? && JString(RequiredString(Get(o, "app_list")).value) == EncodeApplistType(c.appList)
  {
    EncodedLookups(c);
  }

  // ------------------------------------------------------------ layout

  /** Where each binary reads its configuration. */
  function ConfigPath(b: Binary): string {
    match b
    case CrateBinary => JoinPath(ZAPRETT_DIR_PATH, "config.json")
    case RootBinary => "/sdcard/zaprett/config.json"
  }

  /** The directory substituted for `${zaprettdir}`. */
  function ZaprettDir(b: Binary): string {
    match b
    case CrateBinary => ZAPRETT_DIR_PATH
    case RootBinary => "/sdcard/zaprett"
  }

  /** The list mode named by the `list_type` string; anything else panics. */
  function ListTypeNamed(s: string): (t: Option<ListType>)
    ensures t.Some? <==> s == "whitelist" || s == "blacklist"
    ensures t.Some? ==> EncodeListType(t.value) == JString(s)
  {
    if s == "whitelist" then Some(Whitelist)
    else if s == "blacklist" then Some(Blacklist)
    else None
  }

  /** The workspace directory as the root binary writes it out, with its
      trailing '/'; every path and flag of that binary starts with it. */
  const ROOT_TMP: string := "/data/adb/modules/zaprett/tmp/"

  /** The files a mode merges into. */
  function HostPath(b: Binary, t: ListType): string {
    match (b, t)
    case (CrateBinary, Whitelist) => JoinPath(MODULE_PATH, "tmp/hostlist")
    case (CrateBinary, Blacklist) => JoinPath(MODULE_PATH, "tmp/hostlist-exclude")
    case (RootBinary, Whitelist) => ROOT_TMP + "hostlist"
    case (RootBinary, Blacklist) => ROOT_TMP + "hostlist-exclude"
  }

  function IpsetPath(b: Binary, t: ListType): string {
    match (b, t)
    case (CrateBinary, Whitelist) => JoinPath(MODULE_PATH, "tmp/ipset")
    case (CrateBinary, Blacklist) => JoinPath(MODULE_PATH, "tmp/ipset-exclude")
    case (RootBinary, Whitelist) => ROOT_TMP + "ipset"
    case (RootBinary, Blacklist) => ROOT_TMP + "ipset-exclude"
  }

  /** The engine flags a mode substitutes. The crate binary formats the
      whitelist ipset flag without a '/' between the module path and `tmp`. */
  function HostFlag(b: Binary, t: ListType): string {
    match (b, t)
    case (CrateBinary, Whitelist) => "--hostlist=" + MODULE_PATH + "/tmp/hostlist"
    case (CrateBinary, Blacklist) => "--hostlist-exclude=" + MODULE_PATH + "/tmp/hostlist-exclude"
    case (RootBinary, Whitelist) => "--hostlist=" + ROOT_TMP + "hostlist"
    case (RootBinary, Blacklist) => "--hostlist-exclude=" + ROOT_TMP + "hostlist-exclude"
  }

  function IpsetFlag(b: Binary, t: ListType): string {
    match (b, t)
    case (CrateBinary, Whitelist) => "--ipset=" + MODULE_PATH + "tmp/ipset"
    case (CrateBinary, Blacklist) => "--ipset-exclude=" + MODULE_PATH + "/tmp/ipset-exclude"
    case (RootBinary, Whitelist) => "--ipset=" + ROOT_TMP + "ipset"
    case (RootBinary, Blacklist) => "--ipset-exclude=" + ROOT_TMP + "ipset-exclude"
  }

  /** The lists a mode merges: (host lists, ipset lists). */
  function LegacyGroup(t: ListType, c: LegacyConfig): (seq<string>, seq<string>) {
    match t
    case Whitelist => (c.activeLists, c.activeIpsets)
    case Blacklist => (c.activeExcludeLists, c.activeExcludeIpsets)
  }

  /** The root binary's spelled-out workspace is the library's. */
  lemma RootWorkspace()
    ensures MODULE_PATH + "/tmp/" == ROOT_TMP && TMP_DIR + "/" == ROOT_TMP
  {
    assert MODULE_PATH + "/tmp/" == ROOT_TMP;
    assert TMP_DIR + "/" == MODULE_PATH + "/tmp/";
  }

  /** Appending two pieces one after the other appends their concatenation. */
  lemma AppendPieces(x: string, a: string, b: string, ab: string)
    requires a + b == ab
    ensures x + a + b == x + ab
  {
    assert x + a + b == x + (a + b);
  }

  /** Both binaries merge into the files the library merges into. */
  lemma MergedPathsAgree(b: Binary, t: ListType, c: Config)
    ensures HostPath(b, t) == Select(t, c).hostPath && IpsetPath(b, t) == Select(t, c).ipsetPath
  {
    SelectPathsInWorkspace(t, c);
    if b == CrateBinary {
      CratePaths(t);
    } else {
      RootWorkspace();
    }
  }

  /** The crate binary joins the same names onto the module path. */
  lemma CratePaths(t: ListType)
    ensures HostPath(CrateBinary, t) == TMP_DIR + "/" + HostSuffix(t)
    ensures IpsetPath(CrateBinary, t) == TMP_DIR + "/" + IpsetSuffix(t)
  {
    var (h, i) := (HostSuffix(t), IpsetSuffix(t));
    SuffixNames(t);
    WorkspaceChild(h);
    WorkspaceChild(i);
    match t
    case Whitelist =>
      assert "tmp/" + h == "tmp/hostlist" && "tmp/" + i == "tmp/ipset";
    case Blacklist =>
      assert "tmp/" + h == "tmp/hostlist-exclude" && "tmp/" + i == "tmp/ipset-exclude";
  }

  /** The library's flags, spelled out as the root binary spells them. */
  lemma FlagsOfRootBinary(t: ListType, c: Config)
    ensures Select(t, c).hostFlag == HostFlag(RootBinary, t)
    ensures Select(t, c).ipsetFlag == IpsetFlag(RootBinary, t)
  {
    RootWorkspace();
    var (h, i) := (HostSuffix(t), IpsetSuffix(t));
    var (hp, ip) := ("--hostlist" + ExcludeFlag(t) + "=", "--ipset" + ExcludeFlag(t) + "=");
    AppendPieces(hp, MODULE_PATH, "/tmp/", ROOT_TMP);
    AppendPieces(ip, MODULE_PATH, "/tmp/", ROOT_TMP);
    match t
    case Whitelist =>
      assert hp == "--hostlist=" && ip == "--ipset=";
    case Blacklist =>
      assert hp == "--hostlist-exclude=" && ip == "--ipset-exclude=";
  }

  /** The crate binary's flags other than the whitelist ipset one are the
      library's: the same pieces, cut in different places. */
  lemma FlagsOfCrateBinary(t: ListType, c: Config)
    ensures Select(t, c).hostFlag == HostFlag(CrateBinary, t)
    ensures t == Blacklist ==> Select(t, c).ipsetFlag == IpsetFlag(CrateBinary, t)
  {
    match t
    case Whitelist => CrateWhitelistHostFlag(c);
    case Blacklist => CrateBlacklistFlags(c);
  }

  lemma CrateWhitelistHostFlag(c: Config)
    ensures Select(Whitelist, c).hostFlag == HostFlag(CrateBinary, Whitelist)
  {
    assert "--hostlist" + ExcludeFlag(Whitelist) + "=" == "--hostlist=";
    AppendPieces("--hostlist=" + MODULE_PATH, "/tmp/", "hostlist", "/tmp/hostlist");
  }

  lemma CrateBlacklistFlags(c: Config)
    ensures Select(Blacklist, c).hostFlag == HostFlag(CrateBinary, Blacklist)
    ensures Select(Blacklist, c).ipsetFlag == IpsetFlag(CrateBinary, Blacklist)
  {
    CrateBlacklistHostFlag(c);
    CrateBlacklistIpsetFlag(c);
  }

  lemma CrateBlacklistHostFlag(c: Config)
    ensures Select(Blacklist, c).hostFlag == HostFlag(CrateBinary, Blacklist)
  {
    assert "--hostlist" + ExcludeFlag(Blacklist) + "=" == "--hostlist-exclude=";
    AppendPieces("--hostlist-exclude=" + MODULE_PATH, "/tmp/", "hostlist-exclude", "/tmp/hostlist-exclude");
  }

  lemma CrateBlacklistIpsetFlag(c: Config)
    ensures Select(Blacklist, c).ipsetFlag == IpsetFlag(CrateBinary, Blacklist)
  {
    assert "--ipset" + ExcludeFlag(Blacklist) + "=" == "--ipset-exclude=";
    AppendPieces("--ipset-exclude=" + MODULE_PATH, "/tmp/", "ipset-exclude", "/tmp/ipset-exclude");
  }

  /** The crate binary's whitelist ipset flag, as formatted: it names
      `zapretttmp/ipset` in the modules directory instead of the merged file. */
  lemma CrateWhitelistIpsetFlag()
    ensures IpsetFlag(CrateBinary, Whitelist) == "--ipset=/data/adb/modules/zapretttmp/ipset"
  {
    var m := MODULE_PATH;
    assert "--ipset=" + m == "--ipset=/data/adb/modules/zaprett";
    assert "--ipset=/data/adb/modules/zaprett" + "tmp/ipset" == "--ipset=/data/adb/modules/zapretttmp/ipset";
  }

  /** Against the library: the root binary passes the library's flags in both
      modes, the crate binary in all but its whitelist ipset flag, which names
      a file outside the workspace instead of the merged one. */
  lemma FlagsAgainstLibrary(t: ListType, c: Config)
    ensures HostFlag(RootBinary, t) == Select(t, c).hostFlag && IpsetFlag(RootBinary, t) == Select(t, c).ipsetFlag
    ensures HostFlag(CrateBinary, t) == Select(t, c).hostFlag
    ensures (IpsetFlag(CrateBinary, t) == Select(t, c).ipsetFlag) <==> t == Blacklist
  {
    FlagsOfRootBinary(t, c);
    FlagsOfCrateBinary(t, c);
    if t == Whitelist {
      var k := |"--ipset=" + MODULE_PATH|;
      assert IpsetFlag(CrateBinary, t)[k] == 't';
      RootWorkspace();
      assert IpsetFlag(RootBinary, t)[k] == ROOT_TMP[|MODULE_PATH|] == '/';
    }
  }

  // ------------------------------------------------------------ start

  /** A call of a legacy entry point: the world afterwards, how it ended, and
      the substituted strategy if the call got as far as computing it (no
      engine ever receives it). */
  datatype Attempt = Attempt(world: Service.World, outcome: Outcome<()>, strategy: Option<string>)

  const CONFIG_OPEN_PANIC: string := "cannot open config.json"
  const INVALID_JSON_PANIC: string := "invalid json"

  function UnknownListPanic(listType: string): string {
    "no list-type called " + listType
  }

  /** The strategy text: the file named by the configuration when it exists
      and reads as text, the built-in default otherwise. */
  function LegacyStrategyText(fs: FileSystem, path: string): string {
    if Exists(fs, path) then
      match ReadToString(fs, path)
      case Ok(text) => text
      case Err(_) => DEFAULT_START
    else DEFAULT_START
  }

  /** The extra existence check changes nothing: the binaries pick the same
      strategy text as the library does for the same path. */
  lemma StrategyTextAgrees(fs: FileSystem, c: Config)
    ensures LegacyStrategyText(fs, c.strategy) == Service.StrategyText(fs, c)
  {
    if !Exists(fs, c.strategy) {
      assert ReadToString(fs, c.strategy).Err?;
    }
  }

  /** Both merges of a mode, each unwrapped: the host lists first, then the
      ipset lists. */
  function LegacyMergeLists(b: Binary, fs: FileSystem, t: ListType, c: LegacyConfig): (r: (FileSystem, Outcome<()>))
    ensures !r.1.Done? ==> r.1 == Panicked(UNWRAP_PANIC)
  {
    var (hostFiles, ipsetFiles) := LegacyGroup(t, c);
    var host := MergeAtomic(fs, hostFiles, HostPath(b, t));
    if host.result.Err? then (host.fs, Panicked(UNWRAP_PANIC))
    else
      var ipset := MergeAtomic(host.fs, ipsetFiles, IpsetPath(b, t));
      if ipset.result.Err? then (ipset.fs, Panicked(UNWRAP_PANIC)) else (ipset.fs, Done(()))
  }

  /** With the workspace in place and every list a readable text file, the
      binaries' merge leaves exactly the files the library's merge leaves. */
  lemma MergeAgreesWithLibrary(b: Binary, fs: FileSystem, t: ListType, c: Config, d: LegacyConfig)
    requires LegacyGroup(t, d) == Group(t, c)
    requires TMP_DIR in fs.dirs
    requires var s := Select(t, c);
      && s.hostPath !in fs.dirs && s.ipsetPath !in fs.dirs
      && (forall i :: 0 <= i < |s.hostFiles| ==> Readable(fs, s.hostFiles[i]))
      && (forall i :: 0 <= i < |s.ipsetFiles| ==> Readable(fs, s.ipsetFiles[i]))
      && s.hostPath !in s.hostFiles && s.hostPath !in s.ipsetFiles && s.ipsetPath !in s.ipsetFiles
    ensures LegacyMergeLists(b, fs, t, d) == (MergeLists(fs, t, c).0, Done(()))
  {
    var s := Select(t, c);
    MergedPathsAgree(b, t, c);
    SelectPathsInWorkspace(t, c);
    MergeListsSuccess(fs, t, c);
    AtomicAllOrNothing(fs, s.hostFiles, s.hostPath);
    var fs1 := fs.(files := fs.files[s.hostPath := Contents(fs, s.hostFiles)]);
    assert forall i :: 0 <= i < |s.ipsetFiles| ==> Readable(fs1, s.ipsetFiles[i]) by {
      forall i | 0 <= i < |s.ipsetFiles| ensures Readable(fs1, s.ipsetFiles[i]) {
        assert s.ipsetFiles[i] != s.hostPath;
      }
    }
    ContentsFrame(fs, fs1, s.ipsetFiles);
    AtomicAllOrNothing(fs1, s.ipsetFiles, s.ipsetPath);
  }

  /** The end of `start_service`: open the kernel parameter and set it,
      each unwrapped. The binaries pass an integer value, which the Linux
      backend of `sysctl` does not write, so the second `unwrap` panics if the
      first did not; the rules, the engine and `todo!()` after it are never
      reached, and nothing changes. */
  function LegacyFinish(w: Service.World, strategy: string): (a: Attempt)
    ensures a.outcome == Panicked(UNWRAP_PANIC) && a.strategy == Some(strategy)
    ensures a.world == w
  {
    match Service.SetSysctl(w.sysctls, Service.CONNTRACK_LIBERAL, Service.CtlInt(1))
    case Err(_) => Attempt(w, Panicked(UNWRAP_PANIC), Some(strategy))
    case Ok(_) => assert false; Attempt(w, Panicked(TODO_PANIC), Some(strategy))
  }

  /** The part of `start_service` after the configuration is loaded: strategy
      text, mode check, merges, substitution, then the end. Every failure
      panics, and so does success. */
  function LegacyStartWith(b: Binary, w: Service.World, c: LegacyConfig): (a: Attempt)
    ensures a.outcome.Panicked? && a.world == w.(fs := a.world.fs)
  {
    match ListTypeNamed(c.listType)
    case None => Attempt(w, Panicked(UnknownListPanic(c.listType)), None)
    case Some(t) =>
      var (fs1, merged) := LegacyMergeLists(b, w.fs, t, c);
      if !merged.Done? then Attempt(w.(fs := fs1), merged, None)
      else
        var start := LegacyStrategyText(w.fs, c.strategy);
        LegacyFinish(w.(fs := fs1), Substitute(start, HostFlag(b, t), IpsetFlag(b, t), ZaprettDir(b)))
  }

  /** Remove the workspace when something is there; a file in its place
      makes `remove_dir_all` fail. */
  function LegacyClearWorkspace(fs: FileSystem): (r: Result<FileSystem>)
    ensures r.Ok? <==> !(TMP_DIR in fs.files && TMP_DIR !in fs.dirs)
    ensures r.Ok? ==> TMP_DIR !in r.value.dirs
    ensures r.Ok? ==> forall p :: p in r.value.files ==> p in fs.files && r.value.files[p] == fs.files[p]
  {
    if Exists(fs, TMP_DIR) then RemoveDirAll(fs, TMP_DIR) else Ok(fs)
  }

  /** Open, parse and decode the configuration; every failure panics. */
  function LegacyLoad(b: Binary, fs: FileSystem, parse: string -> Option<Json>): (o: Outcome<LegacyConfig>)
    ensures !o.Failed?
    ensures !Exists(fs, ConfigPath(b)) <==> o == Panicked(CONFIG_OPEN_PANIC)
    ensures o.Panicked? && Exists(fs, ConfigPath(b)) ==> o.message == INVALID_JSON_PANIC
    ensures o.Done? <==> (ReadToString(fs, ConfigPath(b)).Ok?
                          && parse(ReadToString(fs, ConfigPath(b)).value).Some?
                          && DecodeLegacy(parse(ReadToString(fs, ConfigPath(b)).value).value).Some?)
    ensures o.Done? ==> DecodeLegacy(parse(ReadToString(fs, ConfigPath(b)).value).value) == Some(o.value)
  {
    if !Exists(fs, ConfigPath(b)) then Panicked(CONFIG_OPEN_PANIC)
    else
      match ReadToString(fs, ConfigPath(b))
      case Err(_) => Panicked(INVALID_JSON_PANIC)
      case Ok(text) =>
        match parse(text)
        case None => Panicked(INVALID_JSON_PANIC)
        case Some(j) =>
          match DecodeLegacy(j)
          case None => Panicked(INVALID_JSON_PANIC)
          case Some(c) => Done(c)
  }

  /** `start_service` of a binary: remove the workspace (and never create it
      again), load the configuration, go on. */
  function LegacyStart(b: Binary, w: Service.World, parse: string -> Option<Json>): Attempt {
    match LegacyClearWorkspace(w.fs)
    case Err(_) => Attempt(w, Panicked(UNWRAP_PANIC), None)
    case Ok(fs1) =>
      var w1 := w.(fs := fs1);
      var loaded := LegacyLoad(b, fs1, parse);
      if !loaded.Done? then Attempt(w1, Propagate(loaded), None)
      else LegacyStartWith(b, w1, loaded.value)
  }

  /** An unknown list mode panics with its name before anything is merged. */
  lemma UnknownListTypePanics(b: Binary, w: Service.World, c: LegacyConfig)
    requires c.listType != "whitelist" && c.listType != "blacklist"
    ensures LegacyStartWith(b, w, c) == Attempt(w, Panicked("no list-type called " + c.listType), None)
  {
  }

  /** The merged file paths lie directly inside the workspace. */
  lemma LegacyPathsInWorkspace(b: Binary, t: ListType)
    ensures DirName(HostPath(b, t)) == TMP_DIR && DirName(IpsetPath(b, t)) == TMP_DIR
  {
    var c := DEFAULT;
    MergedPathsAgree(b, t, c);
    SelectPathsInWorkspace(t, c);
  }

  /** Without the workspace directory no merge can create its output, so the
      start panics before touching the kernel parameters or the rules. */
  lemma StartWithoutWorkspace(b: Binary, w: Service.World, c: LegacyConfig)
    requires TMP_DIR !in w.fs.dirs
    ensures var a := LegacyStartWith(b, w, c);
      a.outcome.Panicked? && a.world == w && a.strategy.None?
  {
    match ListTypeNamed(c.listType)
    case None =>
    case Some(t) =>
      var (hostFiles, _) := LegacyGroup(t, c);
      LegacyPathsInWorkspace(b, t);
      AtomicAllOrNothing(w.fs, hostFiles, HostPath(b, t));
      assert LegacyMergeLists(b, w.fs, t, c) == (w.fs, Panicked(UNWRAP_PANIC));
      assert w.(fs := w.fs) == w;
  }

  /** The start of either binary removes the workspace and never recreates
      it, so it always panics and never reaches the kernel parameters, the
      rules or the process table. */
  lemma LegacyStartNeverSetsUp(b: Binary, w: Service.World, parse: string -> Option<Json>)
    ensures var a := LegacyStart(b, w, parse);
      && a.outcome.Panicked?
      && a.world.net == w.net && a.world.sysctls == w.sysctls && a.world.procs == w.procs
      && a.strategy.None?
      && (LegacyClearWorkspace(w.fs).Ok? ==> TMP_DIR !in a.world.fs.dirs)
      && (LegacyClearWorkspace(w.fs).Err? ==> a.world == w)
  {
    match LegacyClearWorkspace(w.fs)
    case Err(_) =>
    case Ok(fs1) =>
      var loaded := LegacyLoad(b, fs1, parse);
      if loaded.Done? {
        StartWithoutWorkspace(b, w.(fs := fs1), loaded.value);
      }
  }

  /** Given a workspace in which both merges succeed, the start keeps the
      merged files and substitutes the strategy, then panics at the kernel
      parameter, leaving the parameters and the rules as they were. */
  lemma StartWithPanicsAtSysctl(b: Binary, w: Service.World, c: LegacyConfig, t: ListType)
    requires ListTypeNamed(c.listType) == Some(t)
    requires var (hostFiles, ipsetFiles) := LegacyGroup(t, c);
      var host := MergeAtomic(w.fs, hostFiles, HostPath(b, t));
      host.result.Ok? && MergeAtomic(host.fs, ipsetFiles, IpsetPath(b, t)).result.Ok?
    ensures var (hostFiles, ipsetFiles) := LegacyGroup(t, c);
      var host := MergeAtomic(w.fs, hostFiles, HostPath(b, t));
      var a := LegacyStartWith(b, w, c);
      && a.outcome == Panicked(UNWRAP_PANIC)
      && a.world == w.(fs := MergeAtomic(host.fs, ipsetFiles, IpsetPath(b, t)).fs)
      && a.strategy == Some(Substitute(LegacyStrategyText(w.fs, c.strategy), HostFlag(b, t), IpsetFlag(b, t), ZaprettDir(b)))
  {
  }

  // ------------------------------------------------------------ stop, restart

  /** `stop_service`: clear the rules, each step unwrapped, then `todo!()`. */
  function LegacyStop(w: Service.World): (a: Attempt)
    ensures a.world == w.(net := Clear(w.net).net) && a.strategy.None?
    ensures a.outcome == Panicked(if Clear(w.net).result.Ok? then TODO_PANIC else UNWRAP_PANIC)
  {
    var cleared := Clear(w.net);
    var w1 := w.(net := cleared.net);
    if cleared.result.Err? then Attempt(w1, Panicked(UNWRAP_PANIC), None)
    else Attempt(w1, Panicked(TODO_PANIC), None)
  }

  /** `restart_service`: stop, then start. */
  function LegacyRestart(b: Binary, w: Service.World, parse: string -> Option<Json>): Attempt {
    var stopped := LegacyStop(w);
    if stopped.outcome.Panicked? then stopped
    else LegacyStart(b, stopped.world, parse)
  }

  /** Stop always panics, so a restart is a stop and never starts anything. */
  lemma RestartIsStop(b: Binary, w: Service.World, parse: string -> Option<Json>)
    ensures LegacyRestart(b, w, parse) == LegacyStop(w)
  {
  }

  /** A stop after the rules of one setup were installed removes exactly
      those rules before it panics at `todo!()`. */
  lemma StopAfterSetup(w: Service.World)
    requires w.net.available && HasChains(w.net)
    requires RULE !in w.net.chains[FILTER_FORWARD]
    ensures var a := LegacyStop(w.(net := Setup(w.net).net));
      a.outcome == Panicked(TODO_PANIC) && a.world.net == w.net
  {
    ClearAfterSetup(w.net);
    RemoveFirstLast(w.net.chains[FILTER_FORWARD], RULE);
    assert w.net.chains[FILTER_FORWARD := w.net.chains[FILTER_FORWARD]] == w.net.chains;
  }

  // ------------------------------------------------------------ status, autostart

  /** The name the binaries look for in the process table. */
  const ENGINE_NAME: string := "nfqws"

  /** `service_status`: whether any process is called "nfqws"; a process
      table that cannot be listed counts as not running. */
  function LegacyStatus(procs: Option<map<int, string>>): (running: bool)
    ensures running <==> procs.Some? && exists pid :: pid in procs.value && procs.value[pid] == ENGINE_NAME
  {
    procs.Some? && exists pid :: pid in procs.value && procs.value[pid] == ENGINE_NAME
  }

  /** The binaries and the library disagree on what "working" means: the
      library's daemon, recorded in the pid file and named "zaprett", is seen
      as stopped by the binaries when no process is called "nfqws". */
  lemma StatusCriteriaDiffer(w: Service.World, pid: int)
    requires w.root && 0 < pid <= I32_MAX && ReadToString(w.fs, Service.PID_LOCK) == Ok(FormatInt(pid))
    requires pid in w.procs && w.procs[pid] == Service.PROCESS_NAME
    requires forall q :: q in w.procs ==> w.procs[q] != ENGINE_NAME
    ensures Service.Status(w) == Done(true) && !LegacyStatus(Some(w.procs))
  {
    Service.StatusOfRecordedPid(w, pid);
  }

  /** `set_autostart` of the binaries: a failed create is only logged, a
      failed removal panics. */
  function LegacySetAutostart(fs: FileSystem, on: bool): (r: (FileSystem, Outcome<()>))
  {
    if on then
      match Create(fs, Autostart.AUTOSTART_PATH)
      case Ok(fs1) => (fs1, Done(()))
      case Err(_) => (fs, Done(()))
    else
      match RemoveFile(fs, Autostart.AUTOSTART_PATH)
      case Ok(fs1) => (fs1, Done(()))
      case Err(_) => (fs, Panicked(UNWRAP_PANIC))
  }

  /** The binaries change the flag exactly as the library does; only the
      failures differ: enabling never fails, disabling an absent flag panics. */
  lemma SetAutostartAgainstLibrary(fs: FileSystem, on: bool)
    ensures var (fs', o) := LegacySetAutostart(fs, on);
      var s := Autostart.SetAutostart(fs, on);
      && fs' == s.fs
      && (s.result.Ok? ==> o == Done(()))
      && (s.result.Err? ==> o == (if on then Done(()) else Panicked(UNWRAP_PANIC)))
  {
  }

  // ------------------------------------------------------------ dispatch

  datatype Subcommand =
    | Start
    | Stop
    | Restart
    | Status
    | SetAutostart(on: bool)
    | GetAutostart
    | ModuleVer
    | BinVer

  /** What the binaries cannot compute: the JSON parser, the process table
      when it can be listed, and the `version` entry of `module.prop`. */
  datatype LegacyEnv = LegacyEnv(
    parse: string -> Option<Json>,
    processes: Option<map<int, string>>,
    moduleVersion: Option<string>,
    interruptListener: bool)   // whether `tokio::signal::ctrl_c` can listen for the interrupt

  const WELCOME_LINE: string := "zaprett installed. Join us: t.me/zaprett_module"

  /** The `match` of a binary's `main`. Without a subcommand the crate binary
      prints a greeting and the root binary starts the engine with `-v`. */
  function LegacyCommand(b: Binary, cmd: Option<Subcommand>, w: Service.World, env: LegacyEnv): (x: Commands.Exec)
    ensures cmd.Some? ==> x.engineArgv.None?
  {
    match cmd
    case None =>
      (match b
       case CrateBinary => Commands.Exec(w, Done(()), [WELCOME_LINE], None)
       case RootBinary =>
         var r := RunNfqwsOldest(false, "-v");
         Commands.Exec(w, r.outcome, [], r.engineArgv))
    case Some(Start) =>
      var a := LegacyStart(b, w, env.parse);
      Commands.Exec(a.world, a.outcome, [Service.STARTING_LINE], None)
    case Some(Stop) =>
      var a := LegacyStop(w);
      Commands.Exec(a.world, a.outcome, [], None)
    case Some(Restart) =>
      var a := LegacyRestart(b, w, env.parse);
      Commands.Exec(a.world, a.outcome, [], None)
    case Some(Status) =>
      Commands.Exec(w, Done(()), [if LegacyStatus(env.processes) then Commands.WORKING_LINE else Commands.STOPPED_LINE], None)
    case Some(SetAutostart(on)) =>
      var (fs, o) := LegacySetAutostart(w.fs, on);
      Commands.Exec(w.(fs := fs), o, [], None)
    case Some(GetAutostart) =>
      Commands.Exec(w, Done(()), [if Autostart.GetAutostart(w.fs) then "true" else "false"], None)
    case Some(ModuleVer) =>
      Commands.Exec(w, Done(()), if env.moduleVersion.Some? then [env.moduleVersion.value] else [], None)
    case Some(BinVer) =>
      Commands.Exec(w, Panicked(TODO_PANIC), [], None)
  }

  /** `main` of a binary: the subcommand, and then, in the root binary only,
      a wait for Ctrl-C whose `unwrap` panics when no listener can be
      installed. The wait returns once the interrupt arrives; a subcommand
      that panicked never reaches it. */
  function LegacyMain(b: Binary, cmd: Option<Subcommand>, w: Service.World, env: LegacyEnv): (x: Commands.Exec)
    ensures var y := LegacyCommand(b, cmd, w, env);
      && x.world == y.world && x.printed == y.printed && x.engineArgv == y.engineArgv
      && (b == CrateBinary || !y.outcome.Done? ==> x.outcome == y.outcome)
      && (b == RootBinary && y.outcome.Done? ==>
            x.outcome == (if env.interruptListener then Done(()) else Panicked(UNWRAP_PANIC)))
  {
    var y := LegacyCommand(b, cmd, w, env);
    if b == RootBinary && y.outcome.Done? && !env.interruptListener then y.(outcome := Panicked(UNWRAP_PANIC))
    else y
  }

  /** The service subcommands and `bin-ver` of either binary always panic. */
  lemma MainServiceCommandsPanic(b: Binary, w: Service.World, env: LegacyEnv)
    ensures LegacyMain(b, Some(Start), w, env).outcome.Panicked?
    ensures LegacyMain(b, Some(Stop), w, env).outcome.Panicked?
    ensures LegacyMain(b, Some(Restart), w, env).outcome.Panicked?
    ensures LegacyMain(b, Some(BinVer), w, env) == Commands.Exec(w, Panicked(TODO_PANIC), [], None)
  {
    CommandServicePanics(b, w, env);
  }

  lemma CommandServicePanics(b: Binary, w: Service.World, env: LegacyEnv)
    ensures LegacyCommand(b, Some(Start), w, env).outcome.Panicked?
    ensures LegacyCommand(b, Some(Stop), w, env).outcome.Panicked?
    ensures LegacyCommand(b, Some(Restart), w, env).outcome.Panicked?
  {
    LegacyStartNeverSetsUp(b, w, env.parse);
  }

  /** Without a subcommand the root binary runs the engine as `nfqws -v`,
      while the crate binary only greets. */
  lemma NoSubcommand(w: Service.World, env: LegacyEnv)
    ensures LegacyMain(RootBinary, None, w, env)
         == Commands.Exec(w, if env.interruptListener then Done(()) else Panicked(UNWRAP_PANIC), [], Some(["nfqws", "-v"]))
    ensures LegacyMain(CrateBinary, None, w, env) == Commands.Exec(w, Done(()), [WELCOME_LINE], None)
  {
    DefaultSubcommand();
  }
}
