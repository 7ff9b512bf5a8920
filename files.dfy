/**
 * The file system as the stores see it, and the backup-then-write step that
 * both stores run on every save. Real I/O is abstracted: a path holds a
 * readable text file or one that cannot be read, and whether a file can be
 * opened for writing is given by the `denied` set of the environment.
 */
module Files {

  /** What a path holds: a text file, or a file that exists but cannot be read. */
  datatype Entry = Unreadable | File(content: string)

  /** The outcome of `open(path, 'r')` and reading the file through. */
  datatype ReadResult = NotFound | ReadError | Contents(text: string)

  /** Which step of a store raised a `RuntimeError`. */
  datatype Cause = Loading | BackingUp | Saving | Reloading

  /** The exceptions that leave the stores. */
  datatype Error =
    | FileNotFound        // FileNotFoundError from open(), propagated as is
    | ReadFailure         // any other error from open() or reading, propagated as is
    | Runtime(cause: Cause)  // the RuntimeError a store raises in its place

  /** A call either returns normally or raises. */
  datatype Status = Ok | Raised(error: Error)

  /** How the backup-then-write step ended. */
  datatype Persisted = Written | BackupFailed | WriteFailed

  function ReadOf(files: map<string, Entry>, path: string): ReadResult {
    if path !in files then NotFound
    else match files[path]
      case Unreadable => ReadError
      case File(content) => Contents(content)
  }

  /** `filepath + ".save"`. */
  function BackupPath(path: string): (b: string)
    ensures b != path && |b| > |path|
  {
    path + ".save"
  }

  class FileSystem {
    var files: map<string, Entry>
    /** Paths that cannot be opened for writing (permissions, a full disk). */
    var denied: set<string>

    constructor (files: map<string, Entry>, denied: set<string>)
      ensures this.files == files && this.denied == denied
    {
      this.files := files;
      this.denied := denied;
    }

    /** `open(path, 'r')` and reading every line. */
    method Read(path: string) returns (r: ReadResult)
      ensures r.NotFound? <==> path !in files
      ensures r.ReadError? <==> path in files && files[path].Unreadable?
      ensures r.Contents? ==> path in files && files[path] == File(r.text)
    {
      r := ReadOf(files, path);
    }

    /** `os.path.isfile(path)`: true for an unreadable file too. */
    method IsFile(path: string) returns (b: bool)
      ensures b <==> path in files
    {
      b := path in files;
    }

    /** `shutil.copyfile(src, dst)`, which succeeds or fails as a whole. */
    method CopyFile(src: string, dst: string) returns (ok: bool)
      modifies this`files
      ensures ok <==> src in old(files) && old(files)[src].File? && dst !in denied
      ensures files == if ok then old(files)[dst := old(files)[src]] else old(files)
    {
      ok := src in files && files[src].File? && dst !in denied;
      if ok {
        files := files[dst := files[src]];
      }
    }

    /** `open(path, 'w')` and writing `text`, which succeeds or fails as a whole. */
    method WriteFile(path: string, text: string) returns (ok: bool)
      modifies this`files
      ensures ok <==> path !in denied
      ensures files == if ok then old(files)[path := File(text)] else old(files)
    {
      ok := path !in denied;
      if ok {
        files := files[path := File(text)];
      }
    }
  }

  /** The files after the backup-then-write of `text` to `path`, and how it ended. */
  function PersistSpec(files: map<string, Entry>, denied: set<string>, path: string, text: string)
    : (map<string, Entry>, Persisted)
  {
    var backup := BackupPath(path);
    if path in files && (files[path].Unreadable? || backup in denied) then (files, BackupFailed)
    else
      var saved := if path in files then files[backup := files[path]] else files;
      if path in denied then (saved, WriteFailed) else (saved[path := File(text)], Written)
  }

  /** A save that reports success has put the text in the file. */
  lemma PersistWrites(files: map<string, Entry>, denied: set<string>, path: string, text: string)
    ensures var (after, p) := PersistSpec(files, denied, path, text);
      p == Written ==> path in after && after[path] == File(text)
  {
  }

  /**
   * Copy the file to its backup if it exists, then rewrite it. A failed copy
   * stops before the write, so the only good copy is never lost.
   */
  method Persist(fs: FileSystem, path: string, text: string) returns (p: Persisted)
    modifies fs`files
    ensures (fs.files, p) == PersistSpec(old(fs.files), fs.denied, path, text)
  {
    var present := fs.IsFile(path);
    if present {
      var copied := fs.CopyFile(path, BackupPath(path));
      if !copied {
        return BackupFailed;
      }
    }
    var written := fs.WriteFile(path, text);
    p := if written then Written else WriteFailed;
  }

  /** Two paths hold the same thing, or are both absent. */
  ghost predicate SameAt(f: map<string, Entry>, g: map<string, Entry>, q: string) {
    (q in f <==> q in g) && (q in f ==> f[q] == g[q])
  }

  /**
   * The ordering the step guarantees: the backup is taken only when the file
   * exists and before the write; a failed backup leaves every file as it was;
   * a failed write leaves the file itself as it was; only the file and its
   * backup ever change.
   */
  lemma PersistOrdering(files: map<string, Entry>, denied: set<string>, path: string, text: string)
    ensures var (after, p) := PersistSpec(files, denied, path, text);
      && (p == BackupFailed <==> path in files && (files[path].Unreadable? || BackupPath(path) in denied))
      && (p == BackupFailed ==> after == files)
      && (p != BackupFailed && path in files ==> after[BackupPath(path)] == files[path])
      && (p != BackupFailed && path !in files ==> SameAt(after, files, BackupPath(path)))
      && (p == WriteFailed ==> SameAt(after, files, path))
      && (p == Written ==> path in after && after[path] == File(text))
      && (forall q :: q != path && q != BackupPath(path) ==> SameAt(after, files, q))
  {
  }

  /**
   * Saving the same text twice: the file is the same after both, and the
   * second backup holds what the first call wrote. The second call can only
   * fail at its backup, and then changes nothing.
   */
  lemma PersistTwice(files: map<string, Entry>, denied: set<string>, path: string, text: string)
    requires PersistSpec(files, denied, path, text).1 == Written
    ensures var first := PersistSpec(files, denied, path, text).0;
            var (second, p) := PersistSpec(first, denied, path, text);
      && (p == Written <==> BackupPath(path) !in denied)
      && (p == Written ==> second == first[BackupPath(path) := File(text)])
      && (p == BackupFailed ==> second == first)
      && second[path] == first[path] == File(text)
  {
  }
}
