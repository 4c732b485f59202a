/**
 The well-known locations of the module and an abstract filesystem: regular
 files with byte contents and a set of directories. The operations mirror the
 `std::fs` / `tokio::fs` calls of the source: a file can be created only
 inside an existing directory, `read_to_string` fails on bytes that are not
 UTF-8, `remove_file` fails on a missing file.
 */
module FileSystem {
  import opened Common
  import Utf8

  /** Root of the installed module (`MODULE_PATH`). */
  const MODULE_PATH: string := "/data/adb/modules/zaprett"
  /** User data directory (`ZAPRETT_DIR_PATH`). */
  const ZAPRETT_DIR_PATH: string := "/storage/emulated/0/zaprett"

  /** `Path::join`: an absolute `rel` replaces the base. */
  function JoinPath(base: string, rel: string): string {
    if |rel| > 0 && rel[0] == '/' then rel
    else if base == [] || base[|base| - 1] == '/' then base + rel
    else base + "/" + rel
  }

  /** Index of the last '/' in `p`, if any. */
  function LastSlash(p: string): (r: Option<nat>)
    ensures r.Some? ==> r.value < |p| && p[r.value] == '/'
    ensures r.Some? ==> forall j :: r.value < j < |p| ==> p[j] != '/'
    ensures r.None? ==> forall j :: 0 <= j < |p| ==> p[j] != '/'
  {
    if p == [] then None
    else if p[|p| - 1] == '/' then Some(|p| - 1)
    else LastSlash(p[..|p| - 1])
  }

  /** The directory a path lives in: "/" for a top-level entry, "" for a bare name. */
  function DirName(p: string): (d: string)
    ensures |d| <= |p|
  {
    match LastSlash(p)
    case None => ""
    case Some(i) => if i == 0 then "/" else p[..i]
  }

  lemma DirNameOfJoin(dir: string, name: string)
    requires |dir| > 1 && dir[0] == '/' && dir[|dir| - 1] != '/'
    requires |name| > 0 && forall j :: 0 <= j < |name| ==> name[j] != '/'
    ensures DirName(JoinPath(dir, name)) == dir
  {
    var p := dir + "/" + name;
    assert JoinPath(dir, name) == p;
    var i := LastSlash(p);
    assert p[|dir|] == '/';
    if i.None? {
      assert false;
    }
    if i.value > |dir| {
      assert false;
    }
    if i.value < |dir| {
      assert false;
    }
    assert p[..|dir|] == dir;
  }

  /** `p` lies strictly inside directory `d`. */
  predicate Inside(p: string, d: string) {
    |p| > |d| + 1 && p[..|d|] == d && p[|d|] == '/'
  }

  datatype FileSystem = FileSystem(files: map<string, seq<byte>>, dirs: set<string>)

  /** The filesystem after a sequence of calls, and whether it succeeded. */
  datatype FsStep = FsStep(fs: FileSystem, result: Result<()>)

  /** `Path::exists`: a file or a directory is there. */
  predicate Exists(fs: FileSystem, p: string) {
    p in fs.files || p in fs.dirs
  }

  /** `File::create` succeeds: the parent is a directory and `p` is not one. */
  predicate CanCreate(fs: FileSystem, p: string) {
    DirName(p) in fs.dirs && p !in fs.dirs
  }

  /** `File::create`: creates the file, or truncates it when it exists. */
  function Create(fs: FileSystem, p: string): (r: Result<FileSystem>)
    ensures r.Ok? <==> CanCreate(fs, p)
    ensures r.Ok? ==> r.value.files == fs.files[p := []] && r.value.dirs == fs.dirs
    ensures r.Err? ==> r.error == CreateFailed(p)
  {
    if CanCreate(fs, p) then Ok(fs.(files := fs.files[p := []])) else Err(CreateFailed(p))
  }

  /** `File::open` followed by reading the whole file as bytes. */
  function ReadBytes(fs: FileSystem, p: string): (r: Result<seq<byte>>)
    ensures r.Ok? <==> p in fs.files
    ensures r.Ok? ==> r.value == fs.files[p]
    ensures r.Err? ==> r.error == (if p in fs.dirs then ReadFailed(p) else OpenFailed(p))
  {
    if p in fs.files then Ok(fs.files[p])
    else if p in fs.dirs then Err(ReadFailed(p))
    else Err(OpenFailed(p))
  }

  /** `fs::read_to_string`: the file's text, failing on a missing file, a
      directory, or bytes that are not UTF-8. */
  function ReadToString(fs: FileSystem, p: string): (r: Result<string>)
    ensures r.Ok? <==> p in fs.files && Utf8.Valid(fs.files[p])
    ensures r.Ok? ==> Utf8.Encode(r.value) == fs.files[p]
  {
    match ReadBytes(fs, p)
    case Err(e) => Err(e)
    case Ok(bs) =>
      match Utf8.Decode(bs)
      case None => Err(InvalidUtf8(p))
      case Some(text) =>
        Utf8.EncodeDecode(bs);
        Ok(text)
  }

  /** A file holding the encoding of a text reads back as that text. */
  lemma ReadBackText(fs: FileSystem, p: string, text: string)
    requires p in fs.files && fs.files[p] == Utf8.Encode(text)
    ensures ReadToString(fs, p) == Ok(text)
  {
    Utf8.DecodeEncode(text);
  }

  /** `File::create` followed by `write_all(text)`. */
  function WriteText(fs: FileSystem, p: string, text: string): (r: Result<FileSystem>)
    ensures r.Ok? <==> CanCreate(fs, p)
    ensures r.Ok? ==> r.value == fs.(files := fs.files[p := Utf8.Encode(text)])
    ensures r.Ok? ==> ReadToString(r.value, p) == Ok(text)
    ensures r.Err? ==> r.error == CreateFailed(p)
  {
    match Create(fs, p)
    case Err(e) => Err(e)
    case Ok(fs1) =>
      Utf8.DecodeEncode(text);
      Ok(fs1.(files := fs1.files[p := Utf8.Encode(text)]))
  }

  /** `fs::remove_file`. */
  function RemoveFile(fs: FileSystem, p: string): (r: Result<FileSystem>)
    ensures r.Ok? <==> p in fs.files
    ensures r.Ok? ==> r.value == fs.(files := fs.files - {p})
    ensures r.Err? ==> r.error == RemoveFailed(p)
  {
    if p in fs.files then Ok(fs.(files := fs.files - {p})) else Err(RemoveFailed(p))
  }

  /** `fs::remove_dir_all`: the directory and everything inside it. */
  function RemoveDirAll(fs: FileSystem, d: string): (r: Result<FileSystem>)
    ensures r.Ok? <==> d in fs.dirs
    ensures r.Ok? ==> forall p :: p in r.value.files <==> p in fs.files && !Inside(p, d)
    ensures r.Ok? ==> forall p :: p in r.value.files ==> r.value.files[p] == fs.files[p]
    ensures r.Ok? ==> forall p :: p in r.value.dirs <==> p in fs.dirs && p != d && !Inside(p, d)
    ensures r.Err? ==> r.error == RemoveFailed(d)
  {
    if d in fs.dirs then
      Ok(FileSystem(
        map p | p in fs.files && !Inside(p, d) :: fs.files[p],
        set p | p in fs.dirs && p != d && !Inside(p, d)))
    else Err(RemoveFailed(d))
  }

  /** `fs::create_dir_all`: the directory and any missing ancestors. */
  function CreateDirAll(fs: FileSystem, d: string): (r: Result<FileSystem>)
    ensures r.Ok? ==> d in r.value.dirs && fs.dirs <= r.value.dirs && r.value.files == fs.files
    ensures d in fs.dirs ==> r == Ok(fs)
    ensures d !in fs.dirs && d in fs.files ==> r == Err(CreateFailed(d))
    ensures d !in fs.dirs && d !in fs.files && DirName(d) in fs.dirs ==> r == Ok(fs.(dirs := fs.dirs + {d}))
    decreases |d|
  {
    if d in fs.dirs then Ok(fs)
    else if d in fs.files then Err(CreateFailed(d))
    else
      var parent := DirName(d);
      if |parent| < |d| then
        match CreateDirAll(fs, parent)
        case Err(e) => Err(e)
        case Ok(fs1) => Ok(fs1.(dirs := fs1.dirs + {d}))
      else Ok(fs.(dirs := fs.dirs + {d}))
  }
}
