/**
 * The part of the operating system the server talks to, as values: a map
 * from path names to files, the `open` failures the system would report
 * for some of them, and the `stat`, `open`, create and `remove` calls.
 */
module FileSystem {
  import opened Libc
  import opened Wrappers

  /** `st_mode` bits (`<sys/stat.h>`). */
  const S_IFMT: bv32 := 0xF000
  const S_IFREG: bv32 := 0x8000
  const S_IROTH: bv32 := 0x4
  /** `S_IRUSR | S_IWUSR`, the permissions the CGI capture file is created with. */
  const S_IRUSR_IWUSR: bv32 := 0x180

  /** `errno` values (`<errno.h>`). */
  const ENOENT: int := 2
  const EACCES: int := 13

  datatype Inode = Inode(mode: bv32, data: seq<Octet>)

  /**
   * The files by path, and the `errno` an `open` of a path fails with
   * (for a reason the model does not look into: permissions of the
   * server's user, descriptor limits).
   */
  datatype Fs = Fs(files: map<string, Inode>, openErrors: map<string, int>)

  datatype StatBuf = StatBuf(mode: bv32, size: nat)

  datatype OpenResult = Opened(data: seq<Octet>) | OpenFailed(errno: int)

  /** `S_ISREG(mode)`. */
  predicate IsRegular(mode: bv32)
  {
    mode & S_IFMT == S_IFREG
  }

  /** `(mode & S_IROTH) != 0`. */
  predicate OthersMayRead(mode: bv32)
  {
    mode & S_IROTH != 0
  }

  /** `stat(path, &st)`: fails (None) when there is no such file. */
  function Stat(fs: Fs, path: string): Option<StatBuf>
  {
    if path in fs.files then Some(StatBuf(fs.files[path].mode, |fs.files[path].data|)) else None
  }

  /** `open(path, O_RDONLY)`: the file's bytes, or the `errno` of the failure. */
  function Open(fs: Fs, path: string): OpenResult
  {
    if path in fs.openErrors then OpenFailed(fs.openErrors[path])
    else if path !in fs.files then OpenFailed(ENOENT)
    else Opened(fs.files[path].data)
  }

  /**
   * `open(path, O_WRONLY | O_CREAT | O_TRUNC, S_IRUSR | S_IWUSR)` that
   * succeeds: the file exists and is empty; a new file is a regular file
   * readable and writable by its owner only, an old one keeps its mode.
   */
  function CreateTruncated(fs: Fs, path: string): Fs
  {
    var mode := if path in fs.files then fs.files[path].mode else S_IFREG | S_IRUSR_IWUSR;
    fs.(files := fs.files[path := Inode(mode, [])])
  }

  /** Bytes written through a descriptor of `path` (the CGI program's standard output). */
  function WriteAll(fs: Fs, path: string, bytes: seq<Octet>): Fs
    requires path in fs.files
  {
    fs.(files := fs.files[path := Inode(fs.files[path].mode, fs.files[path].data + bytes)])
  }

  /** `remove(path)`. */
  function Remove(fs: Fs, path: string): Fs
  {
    fs.(files := fs.files - {path})
  }
}
