/** file_manager.py: where uploads and outputs go, which output names are served, and the
    shape of job ids. The file system is a parameter: the set of paths that exist. */
module Files {
  import opened Wrappers
  import opened Text
  import opened PurePath

  const HEX_DIGITS: string := "0123456789abcdef"

  /** `'%0{width}x' % n` for n < 16^width: fixed-width lower-case hexadecimal. */
  function Hex(n: nat, width: nat): (s: string)
    ensures |s| == width
    ensures forall i :: 0 <= i < width ==> s[i] in HEX_DIGITS
  {
    if width == 0 then [] else Hex(n / 16, width - 1) + [HEX_DIGITS[n % 16]]
  }

  /** The shape of a job id: eight lower-case hexadecimal characters. */
  predicate IsJobId(id: string) {
    |id| == 8 && forall i :: 0 <= i < |id| ==> id[i] in HEX_DIGITS
  }

  /** The file manager; its two directories are fixed when it is created. */
  datatype FileManager = FileManager(baseDir: string) {

    function UploadsDir(): string {
      Join(baseDir, "uploads")
    }

    function OutputsDir(): string {
      Join(baseDir, "outputs")
    }

    /** `new_job`: the first eight characters of the 128-bit random UUID in hexadecimal. */
    function NewJob(uuid: nat): (id: string)
      requires uuid < 0x1_0000_0000_0000_0000_0000_0000_0000_0000
      ensures IsJobId(id)
    {
      Hex(uuid, 32)[..8]
    }

    /** `save_upload`'s destination: the job id plus the original name's lower-cased suffix,
        in the uploads directory. */
    function UploadDestination(jobId: string, filename: string): string {
      Join(UploadsDir(), jobId + Lower(Suffix(filename)))
    }

    /** A saved upload is named by its job id and the original file's suffix, lower-cased; it
        stays directly inside the uploads directory and keeps the original format, so the
        transcriber accepts or refuses it the same way. */
    lemma UploadKeepsFormat(jobId: string, filename: string)
      requires IsJobId(jobId)
      ensures IsInside(UploadsDir(), UploadDestination(jobId, filename))
      ensures Name(UploadDestination(jobId, filename)) == jobId + Lower(Suffix(filename))
      ensures Suffix(UploadDestination(jobId, filename)) == Lower(Suffix(filename))
    {
      var ext := Lower(Suffix(filename));
      LowerSuffixShape(filename);
      var dir := UploadsDir();
      UploadsDirShape();
      JobComponent(dir, jobId, ext);
      JoinInside(dir, jobId + ext);
      assert UploadDestination(jobId, filename) == (dir + "/") + (jobId + ext);
    }

    function MidiPath(jobId: string): string {
      Join(OutputsDir(), jobId + ".mid")
    }

    function AbcPath(jobId: string): string {
      Join(OutputsDir(), jobId + ".abc")
    }

    function JobMetaPath(jobId: string): string {
      Join(OutputsDir(), jobId + ".json")
    }

    /** The path an output name resolves to (`resolve()` is the identity for a base
        directory that is absolute and free of symbolic links). */
    function OutputCandidate(filename: string): string {
      Join(OutputsDir(), filename)
    }

    /** `get_output_path`: names holding "/", "\\" or ".." are refused; any path returned
        exists and is the outputs directory or an entry directly inside it. The directory
        itself comes back only for the names "" and ".", which pathlib drops when joining. */
    function GetOutputPath(filename: string, existing: set<string>): (r: Option<string>)
      ensures UnsafeName(filename) ==> r == None
      ensures !UnsafeName(filename) ==> (r.Some? <==> OutputCandidate(filename) in existing)
      ensures r.Some? ==> r.value == OutputCandidate(filename) && r.value in existing
      ensures r.Some? ==> IsInside(OutputsDir(), r.value)
      ensures r.Some? ==> (r.value == OutputsDir() <==> filename == [] || filename == ".")
    {
      if UnsafeName(filename) then None
      else
        var candidate := OutputCandidate(filename);
        CandidateInside(filename);
        if !(OutputsDir() <= candidate) then None
        else if candidate in existing then Some(candidate)
        else None
    }

    /** A name passing the character test always passes the prefix test. */
    lemma CandidateInside(filename: string)
      requires !UnsafeName(filename)
      ensures IsInside(OutputsDir(), OutputCandidate(filename))
      ensures OutputsDir() <= OutputCandidate(filename)
      ensures OutputCandidate(filename) == OutputsDir() <==> filename == [] || filename == "."
    {
      ContainsChar(filename, '/');
      OutputsDirShape();
      JoinInside(OutputsDir(), filename);
    }

    lemma OutputsDirShape()
      ensures OutputsDir() != [] && OutputsDir()[|OutputsDir()| - 1] != '/'
    {
    }

    lemma UploadsDirShape()
      ensures UploadsDir() != [] && UploadsDir()[|UploadsDir()| - 1] != '/'
    {
    }

    /** The names "" and "." pass the guard and resolve to the outputs directory itself,
        which is returned whenever it exists. */
    lemma OutputsDirServed(existing: set<string>)
      ensures GetOutputPath("", existing) == GetOutputPath(".", existing)
      ensures OutputsDir() in existing ==> GetOutputPath(".", existing) == Some(OutputsDir())
    {
      ContainsChar(".", '/');
      ContainsChar(".", '\\');
      ContainsDotDot(".");
      ContainsChar("", '/');
      ContainsChar("", '\\');
      ContainsDotDot("");
    }

    /** The URL names a job's files are published under resolve to those files. */
    lemma JobFilesServed(jobId: string, existing: set<string>)
      requires IsJobId(jobId)
      ensures GetOutputPath(jobId + ".mid", existing) == (if MidiPath(jobId) in existing then Some(MidiPath(jobId)) else None)
      ensures GetOutputPath(jobId + ".abc", existing) == (if AbcPath(jobId) in existing then Some(AbcPath(jobId)) else None)
    {
      JobNameSafe(jobId, ".mid");
      JobNameSafe(jobId, ".abc");
    }

    /** A job's MIDI, ABC and metadata paths are pairwise distinct, and different jobs never
        share a path. */
    lemma JobPathsDistinct(a: string, b: string)
      requires '/' !in a && '/' !in b
      ensures MidiPath(a) != AbcPath(b) && MidiPath(a) != JobMetaPath(b) && AbcPath(a) != JobMetaPath(b)
      ensures MidiPath(a) == MidiPath(b) ==> a == b
      ensures AbcPath(a) == AbcPath(b) ==> a == b
      ensures JobMetaPath(a) == JobMetaPath(b) ==> a == b
    {
      OutputsDirShape();
      var d := OutputsDir() + "/";
      var ma, mb := a + ".mid", b + ".mid";
      assert MidiPath(a) == d + ma && MidiPath(b) == d + mb;
      assert AbcPath(a) == d + (a + ".abc") && AbcPath(b) == d + (b + ".abc");
      assert JobMetaPath(a) == d + (a + ".json") && JobMetaPath(b) == d + (b + ".json");
      EndsDiffer(d, a, b, ".mid", ".abc");
      EndsDiffer(d, a, b, ".mid", ".json");
      EndsDiffer(d, a, b, ".abc", ".json");
      SameEndSameJob(d, a, b, ".mid");
      SameEndSameJob(d, a, b, ".abc");
      SameEndSameJob(d, a, b, ".json");
    }
  }

  /** The three character tests of `get_output_path`. */
  predicate UnsafeName(filename: string) {
    Contains(filename, "/") || Contains(filename, "\\") || Contains(filename, "..")
  }

  lemma JobIdHasNoSeparators(jobId: string)
    requires IsJobId(jobId)
    ensures '/' !in jobId && '.' !in jobId && '\\' !in jobId
  {
  }

  /** A job id followed by a suffix-shaped extension is one path component, and placed in a
      directory its suffix is that extension. */
  lemma JobComponent(dir: string, jobId: string, ext: string)
    requires IsJobId(jobId)
    requires ext == [] || (|ext| >= 2 && ext[0] == '.' && '.' !in ext[1..] && '/' !in ext)
    ensures '/' !in jobId + ext && jobId + ext != [] && jobId + ext != "."
    ensures Suffix((dir + "/") + (jobId + ext)) == ext
  {
    JobIdHasNoSeparators(jobId);
    NameOfDirectoryPart(dir);
    SuffixOfStemAndExt(dir + "/", jobId, ext);
    assert (dir + "/") + jobId + ext == (dir + "/") + (jobId + ext);
  }

  /** A job id followed by an extension with one leading dot is a safe output name. */
  lemma JobNameSafe(jobId: string, ext: string)
    requires IsJobId(jobId)
    requires |ext| >= 2 && ext[0] == '.' && '.' !in ext[1..] && '/' !in ext && '\\' !in ext
    ensures !UnsafeName(jobId + ext)
  {
    JobIdHasNoSeparators(jobId);
    var name := jobId + ext;
    ContainsChar(name, '/');
    ContainsChar(name, '\\');
    forall i | 0 <= i < |name| - 1
      ensures !(name[i] == '.' && name[i + 1] == '.')
    {
      if i < 8 {
        assert name[i] == jobId[i];
      } else {
        assert name[i + 1] == ext[1..][i - 8];
      }
    }
    ContainsDotDot(name);
  }

  lemma EndsDiffer(d: string, a: string, b: string, e1: string, e2: string)
    requires e1 != [] && e2 != [] && e1[|e1| - 1] != e2[|e2| - 1]
    ensures d + (a + e1) != d + (b + e2)
  {
    var x, y := d + (a + e1), d + (b + e2);
    assert x[|x| - 1] == e1[|e1| - 1];
    assert y[|y| - 1] == e2[|e2| - 1];
  }

  lemma SameEndSameJob(d: string, a: string, b: string, e: string)
    ensures d + (a + e) == d + (b + e) ==> a == b
  {
    if d + (a + e) == d + (b + e) {
      var x := d + (a + e);
      assert a == x[|d|..|x| - |e|];
      assert b == x[|d|..|x| - |e|];
    }
  }
}
