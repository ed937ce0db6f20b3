/** The file system the converter works on: a map from path to contents,
    with the four operations it uses (create a named temporary file, read,
    write, unlink). Whether an operating-system call fails is not something
    the model can decide, so each call that may fail takes the failure as an
    argument: `Some(message)` makes the call raise with that message (for a
    write, a `WriteFault` that also says how much of the data got written). */
module FileSystem {

  import opened Wrappers
  import opened Paths
  import Text

  type Bytes = seq<Text.byte>

  /** The string of the `FileNotFoundError` that `open(p, 'rb')` raises:
      the path is shown as `repr` shows it. */
  function MissingFileMessage(p: Path): string {
    "[Errno 2] No such file or directory: " + Text.Repr(p)
  }

  /** A write that raises: its message, and how many bytes of the data had
      reached the file when it did (a full disk, say, stops it part way). */
  datatype WriteFault = WriteFault(message: string, kept: nat)

  /** What a file holds after a write of `data` failed with `f`. */
  function Kept(data: Bytes, f: WriteFault): (r: Bytes)
    ensures r <= data
  {
    data[..if f.kept <= |data| then f.kept else |data|]
  }

  /** A temporary name: `TempPrefix`, a run of `a`s, then the suffix. */
  function TempName(run: nat, suffix: string): (p: Path)
    ensures IsTempName(p, suffix)
  {
    var mid := seq(run, _ => 'a');
    var p := TempPrefix + mid + suffix;
    assert p[..|TempPrefix|] == TempPrefix;
    assert p[|p| - |suffix|..] == suffix;
    assert forall k :: |TempPrefix| <= k < |p| - |suffix| ==> p[k] == mid[k - |TempPrefix|];
    p
  }

  class Disk {
    var files: map<Path, Bytes>

    constructor (initial: map<Path, Bytes>)
      ensures files == initial
    {
      files := initial;
    }

    /** `tempfile.NamedTemporaryFile(suffix=suffix, delete=False)`: creates an
        empty file under a name nobody uses yet, ending in `suffix`. Like
        `tempfile`, it tries candidate names until one is free. */
    method CreateTemp(suffix: string, fault: Option<string>) returns (r: Result<Path, string>)
      modifies this
      ensures fault.Some? ==> r == Failure(fault.value) && files == old(files)
      ensures fault.None? ==> && r.Success?
                              && r.value !in old(files)
                              && IsTempName(r.value, suffix)
                              && files == old(files)[r.value := []]
    {
      if fault.Some? {
        return Failure(fault.value);
      }
      var run := 0;
      while TempName(run, suffix) in files
        decreases set k | k in files && |k| >= |TempName(run, suffix)|
      {
        ghost var before := set k | k in files && |k| >= |TempName(run, suffix)|;
        ghost var taken := TempName(run, suffix);
        run := run + 1;
        assert taken in before;
        assert taken !in set k | k in files && |k| >= |TempName(run, suffix)|;
      }
      var p := TempName(run, suffix);
      files := files[p := []];
      r := Success(p);
    }

    /** `open(p, 'rb').read()`. */
    method Read(p: Path, fault: Option<string>) returns (r: Result<Bytes, string>)
      ensures p !in files ==> r == Failure(MissingFileMessage(p))
      ensures p in files && fault.Some? ==> r == Failure(fault.value)
      ensures p in files && fault.None? ==> r == Success(files[p])
    {
      if p !in files {
        r := Failure(MissingFileMessage(p));
      } else if fault.Some? {
        r := Failure(fault.value);
      } else {
        r := Success(files[p]);
      }
    }

    /** Writing `data` through the handle of a file just created, up to the
        flush when the handle is closed: on success the file holds exactly
        `data`; a failed write leaves in it the part written before the
        failure. */
    method Write(p: Path, data: Bytes, fault: Option<WriteFault>) returns (r: Result<(), string>)
      modifies this
      ensures fault.Some? ==> r == Failure(fault.value.message) && files == old(files)[p := Kept(data, fault.value)]
      ensures fault.None? ==> r == Success(()) && files == old(files)[p := data]
    {
      if fault.Some? {
        files := files[p := Kept(data, fault.value)];
        r := Failure(fault.value.message);
      } else {
        files := files[p := data];
        r := Success(());
      }
    }

    /** `os.unlink(p)`. */
    method Unlink(p: Path, fault: Option<string>) returns (r: Result<(), string>)
      modifies this
      ensures p !in old(files) ==> r == Failure(MissingFileMessage(p)) && files == old(files)
      ensures p in old(files) && fault.Some? ==> r == Failure(fault.value) && files == old(files)
      ensures p in old(files) && fault.None? ==> r == Success(()) && files == old(files) - {p}
    {
      if p !in files {
        r := Failure(MissingFileMessage(p));
      } else if fault.Some? {
        r := Failure(fault.value);
      } else {
        files := files - {p};
        r := Success(());
      }
    }
  }
}
