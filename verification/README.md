# zaprett service supervisor — a Dafny model

zaprett is a root-only Android module. It runs the `nfqws` packet-processing
engine against traffic that netfilter diverts to queue 200. Its Rust
supervisor has five jobs:

- prepare a workspace directory under the module;
- merge the user's host and ipset list files into it;
- fill the placeholders of a strategy template with the merged files'
  flags and the user directory;
- set a conntrack kernel parameter and install the queue rules;
- daemonize the engine and record its pid, so that `stop` and `status` can
  find it later.

This project models that supervisor functionally. A `Service.World` holds:

- whether the caller is root;
- a filesystem of byte files and directories;
- the sysctl table;
- the netfilter chains;
- the process table.

Every entry point maps a world to a new world and an `Outcome`. The outcome
keeps apart a returned error (`Failed`, what `?` propagates) and a panic
(`Panicked`, what `unwrap`, `expect`, `panic!` and `todo!` raise).

The repository carries three generations of the supervisor, and all three are
modelled:

- the library crate `rust/crates/zaprett/src` (its `service`, `config`,
  `iptables_rust`, `autostart`, `daemon` and `cli/commands` modules and the
  helpers in `lib.rs`);
- the crate's older binary `rust/crates/zaprett/src/main.rs` (`CrateBinary`);
- the oldest binary `rust/src/main.rs` (`RootBinary`).

Lemmas relate the generations where they agree and pin down where they
differ.

Modules, in dependency order:

- `Common`: bytes, `Option`/`Result`, the error kinds and the panic outcomes.
- `Utf8`: the UTF-8 decoder behind `read_to_string` and the encoder behind
  writing a `String` (RFC 3629, section 4).
- `Text`: the `str` operations the code relies on:
  - `trim` and `split_whitespace` (with Unicode White_Space);
  - `join`;
  - `parse::<i32>` and decimal formatting.
- `FileSystem`: the module's fixed paths, and `std::fs`/`tokio::fs` calls as
  total functions with their error cases.
- `Merge`: `merge_files`, both as the library streams it and as the binaries
  read everything first.
- `Config`: the library's `Config` under `#[serde(default)]`, decoded from
  a JSON object by key or from a JSON array by position, each enum from its
  name or its externally tagged form, as serde's derived
  `Deserialize` accepts them; and `ListType::merge`.
- `Template`: `DEFAULT_START`, and the three `Regex::replace_all` passes of
  `start_service`.
- `Engine`: the argument vector of the three `run_nfqws` versions.
- `Iptables`: `setup_iptables_rules` and `clear_iptables_rules` over a
  chain table.
- `Autostart`: the autostart flag file.
- `Service`: `start_service`, `stop_service`, `restart_service`,
  `service_status` and `daemonize_nfqws`.
- `Commands`: `Command::exec`.
- `Legacy`: the two binaries' `Config`, start, stop, restart, status,
  set-autostart and `main`.

Four behaviours of the code are easy to miss:

- `start_service` has no "already running" check. Two starts in a row succeed
  and install every queue rule twice (`Service.StartTwiceDuplicatesRules`).
- A missing `config.json` makes the start panic with "cannot open
  config.json".
- Stopping a stopped service is not idempotent. Clearing the rules fails
  on the first chain, and `expect` panics (`Service.StopWithoutRules`).
- The library's status checks for a process named "zaprett". The two
  binaries check for any process named "nfqws" (`Legacy.StatusCriteriaDiffer`).

## Model

| member | source | states |
|---|---|---|
| Utf8.DecodeEncode | rust/crates/zaprett/src/service.rs:40-43 | every text written as UTF-8 is read back by `read_to_string` unchanged |
| Utf8.EncodeDecode | rust/crates/zaprett/src/service.rs:31-36 | every byte string `read_to_string` accepts is exactly the encoding of the text it returns |
| Text.TrimStart | rust/crates/zaprett/src/lib.rs:94 | the result is a suffix of the input that starts with a non-whitespace character, and what was dropped is all whitespace |
| Text.TrimEnd | rust/crates/zaprett/src/lib.rs:94 | the result is a prefix of the input that ends with a non-whitespace character, and what was dropped is all whitespace |
| Text.TrimEmptyIffBlank | rust/crates/zaprett/src/lib.rs:94 | `trim().is_empty()` holds exactly for texts made only of whitespace |
| Text.SplitWhitespaceWords | rust/crates/zaprett/src/lib.rs:97 | the words of `split_whitespace` are non-empty and whitespace-free, and together spell the text's non-whitespace characters in order |
| Text.SplitEmptyIffBlank | rust/crates/zaprett/src/lib.rs:94-97 | a text splits into no words exactly when it is blank, so the `-v` branch and an empty split coincide |
| Text.SplitJoinWords | rust/crates/zaprett/src/cli/commands.rs:59 | words joined with single spaces split back into exactly those words |
| Text.SplitTrim | rust/crates/zaprett/src/main.rs:334-337 | splitting the trimmed text gives the same words as splitting the text |
| Text.InSomeWord | rust/crates/zaprett/src/lib.rs:97-103 | a non-whitespace character is in some word exactly when it is in the text |
| Text.ParseI32 | rust/crates/zaprett/src/service.rs:79 | whatever `parse::<i32>` accepts lies in the i32 range |
| Text.ParseFormat | rust/crates/zaprett/src/service.rs:101-103 | the decimal text of every i32 parses back to that number |
| FileSystem.Create | rust/crates/zaprett/src/lib.rs:66 | creating a file succeeds exactly when its parent is a directory and the path is not one; the file is then empty and nothing else changes |
| FileSystem.ReadBytes | rust/crates/zaprett/src/lib.rs:71-80 | reading succeeds exactly for an existing regular file and yields its bytes; a directory is a read error, a missing path an open error |
| FileSystem.ReadToString | rust/crates/zaprett/src/service.rs:40 | reading text succeeds exactly for a regular file holding valid UTF-8, and the text encodes back to its bytes |
| FileSystem.ReadBackText | rust/crates/zaprett/src/service.rs:78 | a file holding the encoding of a text reads back as that text |
| FileSystem.WriteText | rust/crates/zaprett/src/main.rs:273-274 | create-and-write succeeds exactly when create does; only that file changes, and it reads back as the text |
| FileSystem.RemoveFile | rust/crates/zaprett/src/autostart.rs:13 | removal succeeds exactly for an existing file and removes only that file |
| FileSystem.RemoveDirAll | rust/crates/zaprett/src/service.rs:27 | removal succeeds exactly for an existing directory and removes it with everything inside it, leaving every other entry as it was |
| FileSystem.CreateDirAll | rust/crates/zaprett/src/service.rs:28 | an existing directory is left alone, a file in the way is an error, a missing directory under an existing parent is added, and files never change |
| FileSystem.DirNameOfJoin | rust/crates/zaprett/src/config.rs:71-72 | a name joined onto an absolute directory lives directly in that directory |
| Merge.StreamingSuccess | rust/crates/zaprett/src/lib.rs:61-85 | with a creatable output and every input a file, the output holds exactly the inputs' bytes in order, and no other file or directory changes |
| Merge.StreamingEmpty | rust/crates/zaprett/src/lib.rs:66-68 | no inputs leave an existing, empty output and success |
| Merge.StreamingCreateFails | rust/crates/zaprett/src/lib.rs:66 | an output that cannot be created is an error naming it, and nothing changes |
| Merge.StreamingFirstFailure | rust/crates/zaprett/src/lib.rs:68-81 | the first input that cannot be opened or read ends the merge with an error naming that input; the output keeps the earlier inputs' bytes only |
| Merge.MergeStreamingFrame | rust/crates/zaprett/src/lib.rs:61-85 | whether it succeeds or not, a merge changes no file except its output, and no directory |
| Merge.ReadAllText | rust/crates/zaprett/src/main.rs:263-271 | reading all inputs succeeds exactly when each is readable UTF-8 text, and the result encodes to their concatenated bytes |
| Merge.AtomicAllOrNothing | rust/crates/zaprett/src/main.rs:259-277 | the binaries' merge succeeds exactly when every input is readable text and the output can be created; then the output holds the concatenation, otherwise nothing changes |
| Merge.StreamingMatchesAtomic | rust/src/main.rs:237-255 | when every input is readable text, the two merges leave the same filesystem and result |
| Merge.StreamingOutputAsFirstInput | rust/crates/zaprett/src/lib.rs:66-81 | an output that is also the first input is read after it was truncated, so it adds nothing to the merge |
| Merge.VersionsDifferOnMissingInput | rust/crates/zaprett/src/lib.rs:66-73 | on a missing input the library has already emptied the output, while the binaries leave it as it was |
| Config.DecodeEncodeStrings | rust/crates/zaprett/src/config.rs:35-38 | a `Vec<String>` field reads back as written |
| Config.DecodeEncodeEnums | rust/crates/zaprett/src/config.rs:5-28 | each of the three enums reads back as written under its lowercase name |
| Config.EnumForms | rust/crates/zaprett/src/config.rs:5-28 | each enum decodes to a variant exactly from that variant's lowercase name, as a string or in the externally tagged form `{"<name>": null}`, and from no other JSON value |
| Config.TaggedAsString | rust/crates/zaprett/src/config.rs:5-28 | each enum reads the externally tagged form of a name as it reads the name as a string, known or not |
| Config.TaggedListMode | rust/crates/zaprett/src/config.rs:5-11 | `{"list_type": {"blacklist": null}}` is the default configuration in blacklist mode |
| Config.TaggedFieldAgrees | rust/crates/zaprett/src/config.rs:32-45 | in any stored object, the list mode, engine and application-list fields read the same in the tagged form as written as a string |
| Config.EncodeWritesEveryField | rust/crates/zaprett/src/config.rs:33-45 | a written configuration has exactly the eleven field keys |
| Config.DecodeEncode | rust/crates/zaprett/src/config.rs:30-45 | a configuration that was written reads back unchanged |
| Config.EmptyObjectIsDefault | rust/crates/zaprett/src/config.rs:30-32 | under `#[serde(default)]` the empty object is `Config::default()` |
| Config.AbsentFieldTakesDefault | rust/crates/zaprett/src/config.rs:30-45 | dropping any one field from a valid object still decodes, with that field at its default and every other field unchanged |
| Config.KnownFieldsBesides | rust/crates/zaprett/src/config.rs:33-45 | removing one key leaves the lookup of every other known key unchanged |
| Config.UnknownFieldIgnored | rust/crates/zaprett/src/config.rs:30-33 | a key the configuration does not know has no effect on decoding |
| Config.NullFieldFails | rust/crates/zaprett/src/config.rs:32-45 | a known field set to `null` is an error, not a default |
| Config.ScalarFails | rust/crates/zaprett/src/config.rs:30-33 | a JSON value that is neither an object nor an array never decodes as a configuration |
| Config.ObjectAndArrayAgree | rust/crates/zaprett/src/config.rs:33-45 | the array form of a configuration holds, in declaration order, the same value for each field that the object form holds under its key |
| Config.DecodeEncodePositional | rust/crates/zaprett/src/config.rs:30-45 | a configuration stored as an array of its fields in declaration order reads back unchanged |
| Config.EmptyArrayIsDefault | rust/crates/zaprett/src/config.rs:30-32 | under `#[serde(default)]` the empty array is `Config::default()` |
| Config.LongArrayFails | rust/crates/zaprett/src/config.rs:33-45 | an array with more elements than the eleven fields is an error |
| Config.ShorterArrayTakesDefault | rust/crates/zaprett/src/config.rs:30-45 | leaving off the last element of a valid array still decodes, with the field it stood for at its default and every other field unchanged |
| Config.SelectReadsOnlyItsGroup | rust/crates/zaprett/src/config.rs:54-69 | a list mode looks only at its own group of lists: configurations agreeing on it merge the same files |
| Config.SelectFilesAreGroup | rust/crates/zaprett/src/config.rs:54-69 | whitelist merges the active lists and ipsets, blacklist the exclude lists and ipsets |
| Config.SelectPathsInWorkspace | rust/crates/zaprett/src/config.rs:71-72 | both merged files live directly in the workspace directory under the mode's names, and they are different files |
| Config.FlagsNameMergedFiles | rust/crates/zaprett/src/config.rs:77-80 | each engine flag names exactly the file its merge writes, with `-exclude` in blacklist mode |
| Config.MergeListsSuccess | rust/crates/zaprett/src/config.rs:51-81 | with the workspace in place and every list a file, both merged files hold their lists' bytes and the flags are returned |
| Config.MergeListsWithoutWorkspace | rust/crates/zaprett/src/config.rs:74 | without the workspace directory the first merge fails and `unwrap` panics with nothing changed |
| Config.MergeLists | rust/crates/zaprett/src/config.rs:51-81 | the merge step succeeds exactly when both the host and the ipset merge succeed, and then returns the two engine flags; any other outcome is the `unwrap` panic |
| Config.HostMergeFailureSkipsIpsets | rust/crates/zaprett/src/config.rs:74-75 | a failed host merge panics before the ipset file is touched |
| Template.ZaprettDirSpellings | rust/crates/zaprett/src/service.rs:47 | `$zaprettdir` and `${zaprettdir` match, each swallowing a following `}` |
| Template.LiteralMatches | rust/crates/zaprett/src/service.rs:45-46 | a literal pattern matches exactly where its text starts |
| Template.ReplaceNoMatch | rust/crates/zaprett/src/service.rs:52-59 | `replace_all` leaves text without a match unchanged |
| Template.ReplaceFirstMatch | rust/crates/zaprett/src/service.rs:52 | `replace_all` copies the text before the leftmost match, replaces the match, and resumes right after it |
| Template.ReplaceLeavesNo | rust/crates/zaprett/src/service.rs:52-59 | a word whose every occurrence is consumed by the pattern is absent afterwards, unless the replacement could recreate it |
| Template.SubstituteLeavesNoPlaceholder | rust/crates/zaprett/src/service.rs:52-59 | after the three passes, no `$hostlist`, `$ipset`, `$zaprettdir` or `${zaprettdir` is left in the strategy |
| Template.SubstituteWithoutPlaceholders | rust/crates/zaprett/src/service.rs:52-59 | a strategy without any `$` passes through unchanged |
| Engine.ArgvTail | rust/crates/zaprett/src/lib.rs:94-98 | what follows the prefix is never empty and consists of whitespace-free words |
| Engine.TailNul | rust/crates/zaprett/src/lib.rs:100-103 | the engine's arguments hold a NUL exactly when the argument string does |
| Engine.ArgvNul | rust/crates/zaprett/src/lib.rs:88-103 | the whole argument vector holds a NUL exactly when the argument string does |
| Engine.RunNfqws | rust/crates/zaprett/src/lib.rs:87-112 | the library reaches the engine with `nfqws --uid=0:0 --qnum=200` and at least one more argument exactly when the string has no NUL; otherwise it panics in `unwrap` |
| Engine.RunBlank | rust/crates/zaprett/src/lib.rs:94-95 | a blank argument string runs the engine with the prefix and `-v` |
| Engine.RunTokens | rust/crates/zaprett/src/lib.rs:96-98 | otherwise the engine gets the string's words in order, with nothing lost but whitespace |
| Engine.RunClean | rust/crates/zaprett/src/lib.rs:87-112 | without a NUL the library returns `Ok` having run the engine with the prefix and the tail |
| Engine.RunJoinedArgs | rust/crates/zaprett/src/cli/commands.rs:59 | joined words come back unchanged after the prefix, and no words give `-v` |
| Engine.RunNfqwsGuarded | rust/crates/zaprett/src/main.rs:325-357 | a set flag bails with "already started"; otherwise the call returns `Ok`, the engine runs exactly when there is no NUL, and its task clears the flag only if it reached the engine |
| Engine.GuardedTail | rust/crates/zaprett/src/main.rs:334-338 | splitting the trimmed string gives the library's tail |
| Engine.GuardedSecondCallBails | rust/crates/zaprett/src/main.rs:326-330 | while the first engine runs, a second call bails |
| Engine.GuardedNulLocksOut | rust/crates/zaprett/src/main.rs:341-353 | a NUL panics inside the spawned task before the flag is cleared, so every later call bails |
| Engine.GuardedRestartsAfterEngine | rust/crates/zaprett/src/main.rs:349-353 | once a clean engine run has returned, the engine can be started again |
| Engine.RunNfqwsOldest | rust/src/main.rs:302-327 | a set flag panics; otherwise the engine runs, and the flag is set, exactly when there is no NUL, and nothing clears the flag |
| Engine.BinariesAgreeWithLibrary | rust/src/main.rs:302-327 | all three versions pass the same tail after their own prefix |
| Engine.OldestRunsOnce | rust/src/main.rs:305-307 | after one successful start, every later call panics |
| Engine.OldestClean | rust/src/main.rs:302-327 | the oldest version's first clean call runs `nfqws` with the tail |
| Engine.OldestSingleWord | rust/src/main.rs:302-327 | a single word reaches the engine alone after `nfqws` |
| Engine.DefaultSubcommand | rust/src/main.rs:85 | with no subcommand, the oldest binary runs `nfqws -v` |
| Iptables.RemoveFirstMultiset | rust/crates/zaprett/src/iptables_rust.rs:32-48 | a delete removes one copy of the rule and keeps every other rule |
| Iptables.RemoveFirstLast | rust/crates/zaprett/src/iptables_rust.rs:20-48 | deleting what was appended to a chain without that rule gives the chain back |
| Iptables.Insert | rust/crates/zaprett/src/iptables_rust.rs:6-18 | an insert succeeds exactly when the binary is present, the chain exists and the position lies between 1 and one past the end; the rule then sits at that position and nothing else changes |
| Iptables.Append | rust/crates/zaprett/src/iptables_rust.rs:20-24 | an append succeeds exactly when the binary is present and the chain exists, and adds the rule at its end |
| Iptables.Delete | rust/crates/zaprett/src/iptables_rust.rs:32-48 | a delete succeeds exactly when the chain holds the rule, and removes its first copy; each failure names its reason |
| Iptables.DeleteAfterInsert | rust/crates/zaprett/src/iptables_rust.rs:6-11 | deleting a rule just inserted at the head restores the chains |
| Iptables.SetupEffect | rust/crates/zaprett/src/iptables_rust.rs:3-27 | with the binary present and the chains in place, setup succeeds: the rule heads both mangle chains and ends FORWARD, and nothing else changes |
| Iptables.SetupUnavailable | rust/crates/zaprett/src/iptables_rust.rs:4 | without the iptables binary, setup and clear fail and change nothing |
| Iptables.SetupPartialFailure | rust/crates/zaprett/src/iptables_rust.rs:20-24 | setup is not all-or-nothing: without FORWARD it fails after installing both mangle rules |
| Iptables.SetupTwiceDuplicates | rust/crates/zaprett/src/iptables_rust.rs:3-27 | two setups leave two copies of the rule in each chain |
| Iptables.ClearHeads | rust/crates/zaprett/src/iptables_rust.rs:29-51 | clear drops the head rule of each mangle chain and the first queue rule of FORWARD |
| Iptables.ClearAfterSetup | rust/crates/zaprett/src/iptables_rust.rs:29-51 | setup followed by clear changes only FORWARD, which loses its first queue rule |
| Iptables.ClearUndoesSetup | rust/crates/zaprett/src/iptables_rust.rs:3-51 | clear after setup restores both mangle chains and FORWARD's rules as a multiset, and FORWARD exactly when it held no queue rule before |
| Iptables.ClearWithoutRules | rust/crates/zaprett/src/iptables_rust.rs:32-36 | clearing when no rule is installed fails at the first chain and changes nothing |
| Autostart.SetAutostart | rust/crates/zaprett/src/autostart.rs:9-17 | a failed flag change leaves the filesystem as it was |
| Autostart.EnableThenGet | rust/crates/zaprett/src/autostart.rs:9-21 | enabling succeeds exactly when the module directory exists and the flag path is not a directory; the flag then reads as set |
| Autostart.DisableThenGet | rust/crates/zaprett/src/autostart.rs:12-21 | disabling succeeds exactly when the flag file exists; the flag then reads as unset |
| Autostart.DisableAbsent | rust/crates/zaprett/src/autostart.rs:13 | disabling an absent flag is an error and changes nothing |
| Autostart.EnableIdempotent | rust/crates/zaprett/src/autostart.rs:11 | enabling twice is the same as enabling once |
| Autostart.SetTouchesOnlyFlag | rust/crates/zaprett/src/autostart.rs:9-17 | either call changes no file but the flag file, and no directory |
| Autostart.GetDependsOnlyOnFlag | rust/crates/zaprett/src/autostart.rs:19-21 | reading the flag depends on nothing but the flag path |
| Service.WorkspacePaths | rust/crates/zaprett/src/daemon.rs:9-13 | the launcher's output and pid files are three distinct files directly in the workspace, which sits directly in the module directory |
| Service.ResetWorkspace | rust/crates/zaprett/src/service.rs:25-29 | an absent workspace stays absent; a file in its place is an error; an existing workspace is emptied, and everything outside it is kept |
| Service.ResetEmptiesWorkspace | rust/crates/zaprett/src/service.rs:25-29 | wiping an existing workspace leaves it present and empty, with everything outside it untouched |
| Service.ResetKeepsConfig | rust/crates/zaprett/src/service.rs:25-32 | wiping the workspace does not touch the configuration file |
| Service.ReadConfigText | rust/crates/zaprett/src/service.rs:31-36 | a missing `config.json` panics; a directory or non-UTF-8 bytes are errors; otherwise its text is read |
| Service.LoadConfig | rust/crates/zaprett/src/service.rs:38 | loading succeeds exactly when the text parses and decodes, giving the decoded configuration; otherwise it panics with "invalid json" |
| Service.ConfigLoads | rust/crates/zaprett/src/service.rs:31-38 | a configuration file whose text parses and decodes to `c` loads as `c` |
| Service.StrategyText | rust/crates/zaprett/src/service.rs:40-43 | the strategy is the text of the configured file when it is readable, and `DEFAULT_START` otherwise |
| Service.SetSysctl | rust/crates/zaprett/src/service.rs:61-62 | setting a kernel parameter succeeds exactly for a known key and a string value and changes only that key; an unknown key is `NoSuchSysctl` naming it, and an integer value is `SysctlUnknownType` |
| Service.Daemonize | rust/crates/zaprett/src/daemon.rs:6-26 | the launcher finishes exactly when both output files can be created, and otherwise panics in `unwrap` |
| Service.DaemonizeInWorkspace | rust/crates/zaprett/src/daemon.rs:9-25 | in the workspace, the launcher writes its three files, touches no other file, and the pid file reads as the daemon's pid |
| Service.MergedPathsApart | rust/crates/zaprett/src/config.rs:71-72 | the merged list files are neither the launcher's output files nor the pid file |
| Service.StartWith | rust/crates/zaprett/src/service.rs:40-68 | once the configuration is loaded, start never changes the process table or the caller's privileges |
| Service.LaunchDaemon | rust/crates/zaprett/src/service.rs:61-66 | the launch hands the substituted strategy on, and a finished launch always has |
| Service.Start | rust/crates/zaprett/src/service.rs:18-69 | a non-root caller gets `NotRoot` with nothing changed, and a start never changes the process table |
| Service.RootGate | rust/crates/zaprett/src/service.rs:19-21 | start, stop, restart and status all refuse a non-root caller before doing anything |
| Service.StartLoadsConfig | rust/crates/zaprett/src/service.rs:25-38 | with a valid configuration file, start continues with that configuration in the wiped workspace |
| Service.StartAfterReset | rust/crates/zaprett/src/service.rs:25-50 | start goes on with whatever configuration loads from the wiped workspace |
| Service.StartWithoutWorkspace | rust/crates/zaprett/src/service.rs:25-50 | with no workspace, start panics in the first merge and leaves the world unchanged: no kernel parameter, no rule, no file |
| Service.PreparedMerge | rust/crates/zaprett/src/service.rs:50 | in a prepared world both merges succeed, and the workspace stays free of directories |
| Service.PreparedMergeFiles | rust/crates/zaprett/src/service.rs:50 | after a prepared merge, both merged files hold their lists' bytes, and no directory stands where the launcher writes |
| Service.LaunchSucceeds | rust/crates/zaprett/src/service.rs:61-68 | with the parameter known, the chains in place and the workspace clear, the launch succeeds |
| Service.StartWithSucceeds | rust/crates/zaprett/src/service.rs:40-68 | a prepared start succeeds: the parameter is "1", one setup's rules are installed, and the strategy is the substituted template |
| Service.StartWithFiles | rust/crates/zaprett/src/service.rs:50-66 | after a prepared start, the merged files hold their lists' bytes and the pid file holds the daemon's pid |
| Service.StartInstallsRules | rust/crates/zaprett/src/service.rs:64 | a start that gets through has installed exactly the rules of one setup |
| Service.StartWithInstallsRules | rust/crates/zaprett/src/service.rs:64 | the same holds for the part of start after loading |
| Service.LaunchInstallsRules | rust/crates/zaprett/src/service.rs:64 | the same holds for the launch |
| Service.StartTwiceDuplicatesRules | rust/crates/zaprett/src/service.rs:18-69 | with no "already running" check, two starts install every rule twice |
| Service.Kill | rust/crates/zaprett/src/service.rs:81 | a kill succeeds exactly for a live positive pid and removes only that process; otherwise it is ESRCH |
| Service.Stop | rust/crates/zaprett/src/service.rs:71-84 | a non-root caller gets `NotRoot`; a stop changes only rules and processes |
| Service.KillRecorded | rust/crates/zaprett/src/service.rs:78-81 | the second half of stop changes nothing but the process table |
| Service.StopClearFails | rust/crates/zaprett/src/service.rs:76 | when clearing the rules fails, stop panics, keeps the deletions already done, and reads nothing |
| Service.StopWithoutRules | rust/crates/zaprett/src/service.rs:76 | stopping a stopped service panics and changes nothing |
| Service.StopWithoutPidFile | rust/crates/zaprett/src/service.rs:78 | a missing pid file is an error raised after the rules are gone |
| Service.StopUnparsablePid | rust/crates/zaprett/src/service.rs:79 | a pid file whose trimmed text is not a 32-bit integer is a parse error, raised after the rules are gone |
| Service.StopKillsRecordedPid | rust/crates/zaprett/src/service.rs:76-83 | with the rules cleared and a live recorded pid, stop kills exactly that process |
| Service.Restart | rust/crates/zaprett/src/service.rs:86-94 | a non-root caller gets `NotRoot` with nothing changed |
| Service.RestartSequence | rust/crates/zaprett/src/service.rs:90-91 | restart is a stop followed by a start, and a stop that does not succeed means no start |
| Service.AsUsize | rust/crates/zaprett/src/service.rs:108 | `pid as usize` is the 64-bit two's-complement reading of the pid |
| Service.Status | rust/crates/zaprett/src/service.rs:96-116 | status returns an error exactly for a non-root caller, and that error is `NotRoot` |
| Service.StatusWithoutPidFile | rust/crates/zaprett/src/service.rs:101-107 | no readable pid file means not running |
| Service.StatusReadsPidFile | rust/crates/zaprett/src/service.rs:101-115 | an unparsable pid means not running; otherwise the process under the pid's `usize` key must be named "zaprett" |
| Service.StatusOfRecordedPid | rust/crates/zaprett/src/service.rs:101-115 | a positive recorded pid reports whether that process is live under the name "zaprett" |
| Service.StatusNegativePid | rust/crates/zaprett/src/service.rs:108-110 | a negative pid wraps above every real pid, so it reports not running |
| Service.StartThenStatus | rust/crates/zaprett/src/service.rs:66-115 | right after a start, status reports whether the daemon's pid is live and named "zaprett"; start itself adds no process |
| Commands.Execute | rust/crates/zaprett/src/cli/commands.rs:40-63 | only `args` reaches the engine, and only the service and set-autostart commands change the world |
| Commands.ServiceCommandsForward | rust/crates/zaprett/src/cli/commands.rs:41-43 | start, stop and restart end as the service calls do, with the same world and outcome, and stop prints nothing |
| Commands.StartPrints | rust/crates/zaprett/src/service.rs:19-67 | a root start prints "Starting zaprett service..." first whatever happens next, and "zaprett service started!" exactly when it succeeds without the daemon detaching; a non-root start prints nothing and fails with `NotRoot` |
| Commands.RestartPrints | rust/crates/zaprett/src/service.rs:86-94 | a restart whose stop does not succeed prints nothing; otherwise it is the start on the stopped world, printed lines included |
| Commands.StatusLine | rust/crates/zaprett/src/cli/commands.rs:45-54 | status prints one line, "working" exactly when the service runs and "stopped" exactly when it does not; a non-root caller fails silently |
| Commands.StopWhenStopped | rust/crates/zaprett/src/cli/commands.rs:43 | the stop command on a stopped service panics |
| Commands.SetThenGet | rust/crates/zaprett/src/cli/commands.rs:55-56 | after a successful set, get prints the value that was set |
| Commands.SetAutostartFailure | rust/crates/zaprett/src/cli/commands.rs:55 | a failed flag change is the command's error, and the world is unchanged |
| Commands.ArgsReachEngine | rust/crates/zaprett/src/cli/commands.rs:59 | `args` succeeds and hands its words to the engine after the prefix, or `-v` when there are none |
| Legacy.EncodeLegacyWritesEveryField | rust/crates/zaprett/src/main.rs:63-74 | the binaries write exactly their nine field keys |
| Legacy.LegacyDecodeEncode | rust/crates/zaprett/src/main.rs:63-74 | what the binaries write they read back unchanged |
| Legacy.LegacyNeedsEveryField | rust/src/main.rs:59-70 | every field is required: an object missing any one is rejected |
| Legacy.LegacyObjectAndArrayAgree | rust/src/main.rs:59-70 | the array form holds, in declaration order, the same value for each field that the object form holds under its key |
| Legacy.LegacyDecodeEncodePositional | rust/src/main.rs:59-70 | a configuration stored as an array of its nine fields in declaration order reads back unchanged |
| Legacy.LegacyArrayNeedsEveryField | rust/src/main.rs:59-70 | only an array of exactly nine elements can decode: one fewer lacks a required field, one more is trailing data |
| Legacy.LegacyEmptyArrayFails | rust/crates/zaprett/src/main.rs:63-74 | without defaults the empty array is an error |
| Legacy.LegacyScalarFails | rust/src/main.rs:59-70 | a JSON value that is neither an object nor an array never decodes |
| Legacy.ReadsLibraryFile | rust/crates/zaprett/src/main.rs:105-108 | a file the library wrote is read by the binaries with the same lists, strategy and list mode |
| Legacy.LibraryListFields | rust/crates/zaprett/src/main.rs:65-73 | the list fields the library writes decode as the binaries' lists |
| Legacy.LibraryTextFields | rust/crates/zaprett/src/main.rs:69-71 | the library's list mode, strategy and app list decode as the binaries' strings |
| Legacy.ListTypeNamed | rust/crates/zaprett/src/main.rs:132-190 | only "whitelist" and "blacklist" name a list mode, and each is the name the library writes for that mode |
| Legacy.RootWorkspace | rust/src/main.rs:93 | the root binary's hard-coded workspace is the library's |
| Legacy.MergedPathsAgree | rust/src/main.rs:125-153 | both binaries merge into the files the library merges into |
| Legacy.CratePaths | rust/crates/zaprett/src/main.rs:135-168 | the crate binary joins the same names onto the module path |
| Legacy.FlagsOfRootBinary | rust/src/main.rs:133-157 | the root binary's hard-coded flags are the library's |
| Legacy.FlagsOfCrateBinary | rust/crates/zaprett/src/main.rs:144-179 | the crate binary's host flags, and its blacklist ipset flag, are the library's |
| Legacy.CrateWhitelistIpsetFlag | rust/crates/zaprett/src/main.rs:148-151 | the crate binary's whitelist ipset flag misses a '/' and names `zapretttmp/ipset` |
| Legacy.FlagsAgainstLibrary | rust/crates/zaprett/src/main.rs:132-187 | the root binary agrees with the library on every flag; the crate binary agrees on all but the whitelist ipset flag |
| Legacy.StrategyTextAgrees | rust/src/main.rs:112-116 | the binaries' extra existence check picks the same strategy text as the library |
| Legacy.LegacyMergeLists | rust/crates/zaprett/src/main.rs:133-170 | a failed merge in the binaries always panics in `unwrap` |
| Legacy.MergeAgreesWithLibrary | rust/crates/zaprett/src/main.rs:259-277 | with the workspace in place and every list readable text, the binaries merge the same files as the library |
| Legacy.LegacyFinish | rust/crates/zaprett/src/main.rs:192-193 | the end of a binary's start passes the integer 1 to the kernel parameter, which is rejected, so it always panics in `unwrap` with the substituted strategy, before any rule is installed, and changes nothing |
| Legacy.LegacyStartWith | rust/src/main.rs:102-176 | a binary's start after loading always panics, and changes nothing but files: no kernel parameter, rule or process |
| Legacy.LegacyClearWorkspace | rust/src/main.rs:93-96 | removing the workspace fails only on a file in its place, and afterwards no workspace directory is left |
| Legacy.LegacyLoad | rust/crates/zaprett/src/main.rs:105-108 | loading never returns an error: a missing file panics with "cannot open config.json", and any other failure with "invalid json" |
| Legacy.UnknownListTypePanics | rust/crates/zaprett/src/main.rs:188-190 | an unknown list mode panics with its name before anything is merged |
| Legacy.LegacyPathsInWorkspace | rust/src/main.rs:128-151 | every merged file lies directly in the workspace |
| Legacy.StartWithoutWorkspace | rust/crates/zaprett/src/main.rs:133-137 | without the workspace, the first merge panics and nothing changes |
| Legacy.LegacyStartNeverSetsUp | rust/crates/zaprett/src/main.rs:100-103 | because the workspace is removed and never recreated, a binary's start always panics before any kernel parameter or rule changes |
| Legacy.StartWithPanicsAtSysctl | rust/src/main.rs:170-171 | when both merges succeed, the start keeps exactly the merged files and substitutes the strategy, then panics in `unwrap` at the kernel parameter, with the parameters and the rules as they were |
| Legacy.LegacyStop | rust/crates/zaprett/src/main.rs:200-203 | a binary's stop clears the rules and always panics: at `todo!()` after a clean clear, in `unwrap` otherwise |
| Legacy.RestartIsStop | rust/crates/zaprett/src/main.rs:204-208 | a binary's restart is its stop, and never starts anything |
| Legacy.StopAfterSetup | rust/src/main.rs:178-181 | a stop after one setup removes exactly the installed rules, then panics at `todo!()` |
| Legacy.LegacyStatus | rust/crates/zaprett/src/main.rs:222-232 | the binaries report running exactly when some process is named "nfqws", and not running when the table cannot be read |
| Legacy.StatusCriteriaDiffer | rust/crates/zaprett/src/main.rs:227 | the library and the binaries disagree: a live "zaprett" daemon with no "nfqws" process is working for one and stopped for the other |
| Legacy.SetAutostartAgainstLibrary | rust/crates/zaprett/src/main.rs:209-217 | the binaries change the flag as the library does; a failed create is only logged, and a failed remove panics |
| Legacy.LegacyCommand | rust/src/main.rs:74-86 | only the no-subcommand path of `main` reaches the engine |
| Legacy.LegacyMain | rust/src/main.rs:72-88 | after a subcommand that returns, the root binary waits for Ctrl-C and panics in `unwrap` when it cannot listen for it; a subcommand that panicked ends `main` there, and the crate binary never waits (rust/crates/zaprett/src/main.rs:94) |
| Legacy.MainServiceCommandsPanic | rust/crates/zaprett/src/main.rs:84-91 | start, stop, restart and bin-ver of either binary always panic |
| Legacy.NoSubcommand | rust/src/main.rs:84-87 | with no subcommand, the root binary runs `nfqws -v` and then waits for Ctrl-C, and the crate binary prints its greeting |

## Left out

- Forking and daemonizing (`Daemonize::start`). The daemon's pid is an input (`None` when daemonizing fails). The engine is not started, because the call to it is commented out at rust/crates/zaprett/src/daemon.rs:22.
- The working directory and the privileged action of `daemonize_nfqws`. They have no observable effect in the model.
- `daemonize_nfqws2` and the `nfqws2` engine (rust/crates/zaprett/src/daemon.rs:28-48). `start_service` never calls them.
- The engine itself (`nfqws_main`), a foreign C function. A run is represented only by the argument vector it receives; what the engine returns is ignored, as the code ignores it.
- Operating-system calls are state in `Service.World`:
  - the iptables crate is the `Netfilter` chain table;
  - sysctl is a name-to-value map;
  - `kill` is removal from the process table;
  - `sysinfo`/`procfs` are that table.
- `Service.Kill`: a pid of zero or below is treated as "no such process". The real `kill(2)` would signal a process group, which the model has no notion of.
- Service.Status: `process.name()` is compared as an exact string; truncation of process names by the kernel is not modelled.
- Legacy.LegacyFinish: the `sysctl` crate is not part of this model. The model assumes what its Linux backend's `set_value` does: it writes a `CtlValue::String` and returns an error for every other variant. Under that assumption the binaries' `set_value(CtlValue::Int(1)).unwrap()` (rust/src/main.rs:171, rust/crates/zaprett/src/main.rs:193) always panics. So their `setup_iptables_rules`, `run_nfqws`, `todo!()` and closing line are never reached. `Service.SetSysctl` takes the value as `CtlValue`.
- JSON text parsing (serde_json). The parser is a parameter from text to a JSON value. Decoding that value into `Config` is modelled.
- The regular expressions are direct scans for exactly the three patterns used. The replacement values contain no `$`, so `replace_all`'s replacement expansion never applies to them.
- Reading `module.prop` as INI. The `version` entry it yields is an input of `Commands.Execute`.
- The build-time engine version (`env!("ZAPRET_VERSION")`) is also an input of `Commands.Execute`.
- Printing to standard output is modelled as the list of lines the terminal receives. This includes the library's and the binaries' "Starting zaprett service..." and the library's "zaprett service started!". Log messages (`info!`, `error!`) are not modelled, including the library's "zaprett service restarted!", which is logged. The binaries' "zaprett service started!" and "zaprett service restarted!" lines follow a call that always panics, so they are never printed.
- Commands.Execute: when the daemon detaches, `Daemonize::start` ends the calling process with status 0. The daemon goes on with standard output redirected to `tmp/nfqws.out`, and writes "zaprett service started!" there (rust/crates/zaprett/src/service.rs:67). The model's outcome and printed lines are the calling process's. It leaves `tmp/nfqws.out` empty and does not model the daemon's own run.
- Service.StopWithoutPidFile: file errors in the model (`OpenFailed`, `ReadFailed`, `CreateFailed`, `InvalidUtf8`, `RemoveFailed`) carry the path involved, so that the model can say which file failed. Rust's `io::Error` carries only the operating-system error; the message text of the errors is not modelled.
- Service.StopUnparsablePid: `ParseIntFailed` carries nothing. The kind inside Rust's `ParseIntError` (empty, invalid digit, overflow) is not modelled.
- Merge.StreamingSuccess, Merge.StreamingFirstFailure, Merge.StreamingMatchesAtomic, Merge.CopyIntoAll and Merge.CopyIntoStops assume the output is not one of the inputs. Paths are compared as strings, so two spellings of one file are two files in the model. When the output is also an input, the streaming merge reads a file it is writing: `Merge.StreamingOutputAsFirstInput` covers the first position, where the file was just truncated. At a later position the result depends on the operating system's file offsets and on the buffering of `tokio::fs::File`, and is not modelled. The all-or-nothing merge reads every input before creating the output, and `Merge.AtomicAllOrNothing` holds without this assumption.
- The `tokio` runtime. Every `async` call is modelled as running to completion in order.
- The `AtomicBool` flags of the two binaries' `run_nfqws` are plain booleans threaded through calls. Concurrent callers are not modelled.
- Engine.RunNfqwsGuarded: the crate binary never awaits it from `start_service`, so its effect there is not modelled; the function models the call itself.
- Commands.Execute: the `set-autostart` arm of rust/crates/zaprett/src/cli/commands.rs:55 calls `set_autostart()` with no flag value; the model takes the flag the user asked for as the command's argument.
- Commands.Execute: the `set-autostart` and `get-autostart` arms (rust/crates/zaprett/src/cli/commands.rs:55-56) call `set_autostart` and `get_autostart` imported from `crate::autostart` (rust/crates/zaprett/src/cli/commands.rs:1). rust/crates/zaprett/src/lib.rs:1-5 declares no `mod autostart`, so the crate as written does not resolve that import. The model uses the functions of rust/crates/zaprett/src/autostart.rs. `Autostart.GetAutostart` models rust/crates/zaprett/src/autostart.rs:19-21, which returns the flag, and the `get-autostart` arm prints it once.
- Commands.Execute: the `module-version` and `bin-version` arms (rust/crates/zaprett/src/cli/commands.rs:57-58) print what `module_version().await?` and `bin_version()` return. Both functions return nothing and print by themselves (rust/crates/zaprett/src/lib.rs:48-59). The model prints what the functions print: the version once when `module.prop` has one and nothing otherwise, and the engine version once.
- The private `set_autostart` and `get_autostart` in rust/crates/zaprett/src/lib.rs:31-46 are not what the dispatcher imports, and are not modelled on their own. lib.rs's `set_autostart` changes the flag file as autostart.rs's does. lib.rs's `get_autostart` prints the flag instead of returning it.
- The command-line parsing (clap) is not part of this model, nor is the build script.
- File permissions and ownership are not modelled; any existing parent directory admits a new file.
