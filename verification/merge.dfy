/**
 The list merger: concatenate list files, in order, into one workspace file.
 Two behaviours exist in the source. The library version streams: it
 truncates the output first and copies one input after another, so a failure
 leaves a partial output behind. The older binaries read every input as text
 first and create the output only when all reads succeeded.
 */
module Merge {
  import opened Common
  import opened FileSystem
  import Utf8

  predicate AllFiles(fs: FileSystem, inputs: seq<string>) {
    forall i :: 0 <= i < |inputs| ==> inputs[i] in fs.files
  }

  /** The concatenated bytes of the inputs, in the given order. */
  function Contents(fs: FileSystem, inputs: seq<string>): seq<byte>
    requires AllFiles(fs, inputs)
  {
    if inputs == [] then [] else fs.files[inputs[0]] + Contents(fs, inputs[1..])
  }

  lemma {:induction false} ContentsAppend(fs: FileSystem, inputs: seq<string>, k: nat)
    requires k < |inputs| && AllFiles(fs, inputs[..k + 1])
    ensures Contents(fs, inputs[..k + 1]) == Contents(fs, inputs[..k]) + fs.files[inputs[k]]
  {
    if k > 0 {
      assert inputs[..k + 1][1..] == inputs[1..][..k];
      assert inputs[..k][1..] == inputs[1..][..k - 1];
      ContentsAppend(fs, inputs[1..], k - 1);
    }
  }

  /** Contents only look at the inputs' own files. */
  lemma {:induction false} ContentsFrame(fs: FileSystem, fs': FileSystem, inputs: seq<string>)
    requires AllFiles(fs, inputs)
    requires forall i :: 0 <= i < |inputs| ==> inputs[i] in fs'.files && fs'.files[inputs[i]] == fs.files[inputs[i]]
    ensures AllFiles(fs', inputs) && Contents(fs', inputs) == Contents(fs, inputs)
  {
    if inputs != [] {
      ContentsFrame(fs, fs', inputs[1..]);
    }
  }

  // ------------------------------------------------------- streaming version

  /** `merge_files` of the library: truncate the output, then append each
      input in turn, stopping at the first one that cannot be read. */
  function MergeStreaming(fs: FileSystem, inputs: seq<string>, output: string): FsStep {
    match Create(fs, output)
    case Err(e) => FsStep(fs, Err(e))
    case Ok(fs1) => CopyInto(fs1, inputs, output)
  }

  function CopyInto(fs: FileSystem, inputs: seq<string>, output: string): FsStep
    requires output in fs.files
    decreases |inputs|
  {
    if inputs == [] then FsStep(fs, Ok(()))
    else
      match ReadBytes(fs, inputs[0])
      case Err(e) => FsStep(fs, Err(e))
      case Ok(data) =>
        CopyInto(fs.(files := fs.files[output := fs.files[output] + data]), inputs[1..], output)
  }

  lemma {:induction false} CopyIntoAll(fs: FileSystem, inputs: seq<string>, output: string)
    requires output in fs.files && output !in inputs && AllFiles(fs, inputs)
    ensures CopyInto(fs, inputs, output)
         == FsStep(fs.(files := fs.files[output := fs.files[output] + Contents(fs, inputs)]), Ok(()))
    decreases |inputs|
  {
    if inputs != [] {
      var first := fs.files[output] + fs.files[inputs[0]];
      var fs2 := fs.(files := fs.files[output := first]);
      assert CopyInto(fs, inputs, output) == CopyInto(fs2, inputs[1..], output);
      ContentsFrame(fs, fs2, inputs[1..]);
      CopyIntoAll(fs2, inputs[1..], output);
      assert first + Contents(fs, inputs[1..]) == fs.files[output] + Contents(fs, inputs);
      assert fs2.files[output := first + Contents(fs2, inputs[1..])]
          == fs.files[output := fs.files[output] + Contents(fs, inputs)];
    } else {
      assert fs.files[output] + [] == fs.files[output];
      assert fs.files[output := fs.files[output]] == fs.files;
    }
  }

  /** On success the output holds exactly the inputs' bytes in the given order,
      whatever it held before, and no other file or directory changes. */
  lemma StreamingSuccess(fs: FileSystem, inputs: seq<string>, output: string)
    requires CanCreate(fs, output) && AllFiles(fs, inputs) && output !in inputs
    ensures MergeStreaming(fs, inputs, output)
         == FsStep(fs.(files := fs.files[output := Contents(fs, inputs)]), Ok(()))
  {
    var fs1 := Create(fs, output).value;
    assert MergeStreaming(fs, inputs, output) == CopyInto(fs1, inputs, output);
    ContentsFrame(fs, fs1, inputs);
    CopyIntoAll(fs1, inputs, output);
    assert fs1.files[output] + Contents(fs1, inputs) == Contents(fs, inputs);
    assert fs1.files[output := Contents(fs, inputs)] == fs.files[output := Contents(fs, inputs)];
  }

  /** An empty input list yields an existing, empty output and success. */
  lemma StreamingEmpty(fs: FileSystem, output: string)
    requires CanCreate(fs, output)
    ensures MergeStreaming(fs, [], output) == FsStep(fs.(files := fs.files[output := []]), Ok(()))
  {
  }

  /** An output that is also the first input has just been truncated when it
      is read, so it contributes nothing: the merge is that of the other
      inputs. */
  lemma StreamingOutputAsFirstInput(fs: FileSystem, rest: seq<string>, output: string)
    requires CanCreate(fs, output)
    ensures MergeStreaming(fs, [output] + rest, output) == MergeStreaming(fs, rest, output)
  {
    var fs1 := Create(fs, output).value;
    assert ([output] + rest)[1..] == rest;
    assert fs1.files[output] == [] && fs1.files[output] + [] == fs1.files[output];
    assert fs1.files[output := fs1.files[output]] == fs1.files;
  }

  /** When the output cannot be created nothing happens and no input is read. */
  lemma StreamingCreateFails(fs: FileSystem, inputs: seq<string>, output: string)
    requires !CanCreate(fs, output)
    ensures MergeStreaming(fs, inputs, output) == FsStep(fs, Err(CreateFailed(output)))
  {
  }

  lemma {:induction false} CopyIntoStops(fs: FileSystem, inputs: seq<string>, output: string, k: nat)
    requires output in fs.files && output !in inputs
    requires k < |inputs| && AllFiles(fs, inputs[..k]) && inputs[k] !in fs.files
    ensures CopyInto(fs, inputs, output)
         == FsStep(fs.(files := fs.files[output := fs.files[output] + Contents(fs, inputs[..k])]),
                   Err(ReadBytes(fs, inputs[k]).error))
    decreases k
  {
    if k == 0 {
      assert fs.files[output] + [] == fs.files[output];
      assert fs.files[output := fs.files[output]] == fs.files;
    } else {
      assert inputs[0] == inputs[..k][0];
      var first := fs.files[output] + fs.files[inputs[0]];
      var fs2 := fs.(files := fs.files[output := first]);
      assert CopyInto(fs, inputs, output) == CopyInto(fs2, inputs[1..], output);
      var rest := inputs[1..];
      assert rest[..k - 1] == inputs[..k][1..];
      assert AllFiles(fs, rest[..k - 1]);
      ContentsFrame(fs, fs2, rest[..k - 1]);
      assert rest[k - 1] == inputs[k];
      CopyIntoStops(fs2, rest, output, k - 1);
      assert Contents(fs, inputs[..k]) == fs.files[inputs[0]] + Contents(fs, rest[..k - 1]);
      assert first + Contents(fs2, rest[..k - 1]) == fs.files[output] + Contents(fs, inputs[..k]);
      assert fs2.files[output := first + Contents(fs2, rest[..k - 1])]
          == fs.files[output := fs.files[output] + Contents(fs, inputs[..k])];
    }
  }

  /** The first input that cannot be read aborts the merge with an error naming
      that path. The output was truncated first, so it now holds the earlier
      inputs' bytes only; later inputs are never looked at (nothing is assumed
      about them). */
  lemma StreamingFirstFailure(fs: FileSystem, inputs: seq<string>, output: string, k: nat)
    requires CanCreate(fs, output) && output !in inputs
    requires k < |inputs| && AllFiles(fs, inputs[..k]) && inputs[k] !in fs.files
    ensures MergeStreaming(fs, inputs, output).fs
         == fs.(files := fs.files[output := Contents(fs, inputs[..k])])
    ensures MergeStreaming(fs, inputs, output).result
         == Err(if inputs[k] in fs.dirs then ReadFailed(inputs[k]) else OpenFailed(inputs[k]))
  {
    var fs1 := Create(fs, output).value;
    assert MergeStreaming(fs, inputs, output) == CopyInto(fs1, inputs, output);
    CopyIntoStopsAfterCreate(fs, fs1, inputs, output, k);
  }

  /** `StreamingFirstFailure` once the output has been created empty. */
  lemma CopyIntoStopsAfterCreate(fs: FileSystem, fs1: FileSystem, inputs: seq<string>, output: string, k: nat)
    requires fs1 == fs.(files := fs.files[output := []]) && output !in inputs
    requires k < |inputs| && AllFiles(fs, inputs[..k]) && inputs[k] !in fs.files
    ensures CopyInto(fs1, inputs, output)
         == FsStep(fs.(files := fs.files[output := Contents(fs, inputs[..k])]),
                   Err(if inputs[k] in fs.dirs then ReadFailed(inputs[k]) else OpenFailed(inputs[k])))
  {
    assert AllFiles(fs1, inputs[..k]) && Contents(fs1, inputs[..k]) == Contents(fs, inputs[..k]) by {
      assert output !in inputs[..k];
      ContentsFrame(fs, fs1, inputs[..k]);
    }
    assert inputs[k] !in fs1.files by {
      assert inputs[k] != output;
    }
    CopyIntoStops(fs1, inputs, output, k);
    var c := Contents(fs, inputs[..k]);
    assert fs1.files[output] + Contents(fs1, inputs[..k]) == c;
    assert fs1.files[output := c] == fs.files[output := c];
  }

  lemma {:induction false} CopyIntoFrame(fs: FileSystem, inputs: seq<string>, output: string, q: string)
    requires output in fs.files && q != output
    ensures var r := CopyInto(fs, inputs, output).fs;
      && r.dirs == fs.dirs && output in r.files
      && (q in r.files <==> q in fs.files) && (q in fs.files ==> r.files[q] == fs.files[q])
    decreases |inputs|
  {
    if inputs != [] && ReadBytes(fs, inputs[0]).Ok? {
      var fs2 := fs.(files := fs.files[output := fs.files[output] + fs.files[inputs[0]]]);
      CopyIntoFrame(fs2, inputs[1..], output, q);
    }
  }

  /** A merge, successful or not, changes no file but its output and no
      directory. */
  lemma MergeStreamingFrame(fs: FileSystem, inputs: seq<string>, output: string, q: string)
    requires q != output
    ensures var r := MergeStreaming(fs, inputs, output).fs;
      && r.dirs == fs.dirs
      && (q in r.files <==> q in fs.files) && (q in fs.files ==> r.files[q] == fs.files[q])
  {
    if CanCreate(fs, output) {
      CopyIntoFrame(Create(fs, output).value, inputs, output, q);
    }
  }

  // -------------------------------------------------- all-or-nothing version

  predicate Readable(fs: FileSystem, p: string) {
    p in fs.files && Utf8.Valid(fs.files[p])
  }

  /** Read every input with `read_to_string`, concatenating the texts; the
      first failure is the result. */
  function ReadAllText(fs: FileSystem, inputs: seq<string>): (r: Result<string>)
    ensures r.Ok? <==> forall i :: 0 <= i < |inputs| ==> Readable(fs, inputs[i])
    ensures r.Ok? ==> AllFiles(fs, inputs) && Utf8.Encode(r.value) == Contents(fs, inputs)
  {
    if inputs == [] then Ok([])
    else
      match ReadToString(fs, inputs[0])
      case Err(e) => Err(e)
      case Ok(text) =>
        match ReadAllText(fs, inputs[1..])
        case Err(e) =>
          assert exists i :: 1 <= i < |inputs| && !Readable(fs, inputs[i]) by {
            var i :| 0 <= i < |inputs| - 1 && !Readable(fs, inputs[1..][i]);
            assert inputs[1..][i] == inputs[i + 1];
          }
          Err(e)
        case Ok(rest) =>
          Utf8.EncodeAppend(text, rest);
          assert forall i :: 1 <= i < |inputs| ==> inputs[i] == inputs[1..][i - 1];
          Ok(text + rest)
  }

  /** `merge_files` of the binaries: read all inputs as text, then create the
      output and write their concatenation. */
  function MergeAtomic(fs: FileSystem, inputs: seq<string>, output: string): FsStep {
    match ReadAllText(fs, inputs)
    case Err(e) => FsStep(fs, Err(e))
    case Ok(text) =>
      match WriteText(fs, output, text)
      case Err(e) => FsStep(fs, Err(e))
      case Ok(fs1) => FsStep(fs1, Ok(()))
  }

  /** All or nothing: the merge succeeds exactly when every input is a
      readable UTF-8 file and the output can be created; then the output holds
      the ordered concatenation and nothing else changes; otherwise nothing
      changes at all. */
  lemma AtomicAllOrNothing(fs: FileSystem, inputs: seq<string>, output: string)
    ensures var s := MergeAtomic(fs, inputs, output);
      && (s.result.Ok? <==> (forall i :: 0 <= i < |inputs| ==> Readable(fs, inputs[i])) && CanCreate(fs, output))
      && (s.result.Ok? ==> AllFiles(fs, inputs) && s.fs == fs.(files := fs.files[output := Contents(fs, inputs)]))
      && (s.result.Err? ==> s.fs == fs)
  {
  }

  /** When every input is a readable text file the two versions agree. */
  lemma StreamingMatchesAtomic(fs: FileSystem, inputs: seq<string>, output: string)
    requires CanCreate(fs, output) && output !in inputs
    requires forall i :: 0 <= i < |inputs| ==> Readable(fs, inputs[i])
    ensures MergeStreaming(fs, inputs, output) == MergeAtomic(fs, inputs, output)
  {
    AtomicAllOrNothing(fs, inputs, output);
    StreamingSuccess(fs, inputs, output);
  }

  /** They differ on a missing input: the streaming merge has already emptied
      the output, while the all-or-nothing merge leaves it as it was. */
  lemma VersionsDifferOnMissingInput(fs: FileSystem, missing: string, output: string)
    requires CanCreate(fs, output) && output in fs.files && fs.files[output] != []
    requires missing !in fs.files && missing != output
    ensures MergeStreaming(fs, [missing], output).fs.files[output] == []
    ensures MergeAtomic(fs, [missing], output).fs.files[output] == fs.files[output]
  {
    StreamingFirstFailure(fs, [missing], output, 0);
    assert [missing][..0] == [];
  }
}
