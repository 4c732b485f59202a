/**
 The autostart flag: an empty file in the module directory whose presence
 asks the boot script to start the service.
 */
module Autostart {
  import opened Common
  import opened FileSystem

  const AUTOSTART_PATH: string := MODULE_PATH + "/autostart"

  /** `set_autostart(on)`: create (or truncate) the flag file, or remove it;
      a filesystem error is returned. */
  function SetAutostart(fs: FileSystem, on: bool): (s: FsStep)
    ensures s.result.Err? ==> s.fs == fs
  {
    if on then
      match Create(fs, AUTOSTART_PATH)
      case Ok(fs1) => FsStep(fs1, Ok(()))
      case Err(e) => FsStep(fs, Err(e))
    else
      match RemoveFile(fs, AUTOSTART_PATH)
      case Ok(fs1) => FsStep(fs1, Ok(()))
      case Err(e) => FsStep(fs, Err(e))
  }

  /** `get_autostart`: whether the flag file exists. */
  function GetAutostart(fs: FileSystem): bool {
    Exists(fs, AUTOSTART_PATH)
  }

  lemma ModuleDirIsParent()
    ensures DirName(AUTOSTART_PATH) == MODULE_PATH
  {
    assert forall j :: 0 <= j < |"autostart"| ==> "autostart"[j] != '/';
    DirNameOfJoin(MODULE_PATH, "autostart");
    assert JoinPath(MODULE_PATH, "autostart") == AUTOSTART_PATH;
  }

  /** Enabling succeeds exactly when the module directory exists and the flag
      path is not a directory, and afterwards the flag reads back as set. */
  lemma EnableThenGet(fs: FileSystem)
    ensures var s := SetAutostart(fs, true);
      && (s.result.Ok? <==> MODULE_PATH in fs.dirs && AUTOSTART_PATH !in fs.dirs)
      && (s.result.Ok? ==> GetAutostart(s.fs))
  {
    ModuleDirIsParent();
  }

  /** Disabling succeeds exactly when the flag file is there, and afterwards
      the flag reads back as unset. */
  lemma DisableThenGet(fs: FileSystem)
    requires AUTOSTART_PATH !in fs.dirs
    ensures var s := SetAutostart(fs, false);
      && (s.result.Ok? <==> AUTOSTART_PATH in fs.files)
      && (s.result.Ok? ==> !GetAutostart(s.fs))
  {
  }

  /** Disabling an absent flag is an error and changes nothing. */
  lemma DisableAbsent(fs: FileSystem)
    requires AUTOSTART_PATH !in fs.files
    ensures SetAutostart(fs, false) == FsStep(fs, Err(RemoveFailed(AUTOSTART_PATH)))
  {
  }

  /** Enabling twice is the same as enabling once. */
  lemma EnableIdempotent(fs: FileSystem)
    requires SetAutostart(fs, true).result.Ok?
    ensures SetAutostart(SetAutostart(fs, true).fs, true) == SetAutostart(fs, true)
  {
    var fs1 := SetAutostart(fs, true).fs;
    assert fs1.files[AUTOSTART_PATH := []] == fs1.files;
  }

  /** Either call touches only the flag file: every other file and every
      directory is as before. */
  lemma SetTouchesOnlyFlag(fs: FileSystem, on: bool, p: string)
    requires p != AUTOSTART_PATH
    ensures var s := SetAutostart(fs, on);
      && s.fs.dirs == fs.dirs
      && (p in s.fs.files <==> p in fs.files)
      && (p in fs.files ==> s.fs.files[p] == fs.files[p])
  {
  }

  /** Reading the flag depends on nothing but the flag path. */
  lemma GetDependsOnlyOnFlag(fs: FileSystem, fs': FileSystem)
    requires (AUTOSTART_PATH in fs.files <==> AUTOSTART_PATH in fs'.files)
    requires (AUTOSTART_PATH in fs.dirs <==> AUTOSTART_PATH in fs'.dirs)
    ensures GetAutostart(fs) == GetAutostart(fs')
  {
  }
}
