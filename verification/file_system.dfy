/** The part of the C standard I/O library the loaders touch, as a pure
    value: a disk maps path strings to byte contents. Opening for reading
    succeeds exactly on the paths that hold a file; opening for writing
    ("w", create or truncate) succeeds exactly on the paths the environment
    lets the process create or overwrite. */
module FileSystem {

  newtype byte = x: int | 0 <= x < 256

  datatype Disk = Disk(files: map<string, seq<byte>>, writable: set<string>)

  /** `fopen(path, "r") != NULL`. */
  predicate OpensForReading(disk: Disk, path: string)
  {
    path in disk.files
  }

  /** `fopen(path, "w") != NULL`. */
  predicate OpensForWriting(disk: Disk, path: string)
  {
    path in disk.writable
  }

  /** What one `fread` of a whole file achieves: `delivered` is how many
      bytes it copied (the library ignores that count), and `stale` is what
      the freshly allocated buffer held at each index before the call. */
  datatype Fread = Fread(delivered: nat, stale: nat -> byte)

  /** A read that delivers every byte. */
  function CompleteRead(stale: nat -> byte, data: seq<byte>): (rd: Fread)
    ensures |data| <= rd.delivered
  {
    Fread(|data|, stale)
  }

  /** The `length`-byte buffer after `fread` copied from `data` into it:
      the bytes it delivered come from the file, the others stay stale. */
  function ReadInto(data: seq<byte>, length: nat, rd: Fread): (buffer: seq<byte>)
    ensures |buffer| == length
    ensures forall i | 0 <= i < length && i < |data| && i < rd.delivered :: buffer[i] == data[i]
    ensures forall i | 0 <= i < length && !(i < |data| && i < rd.delivered) :: buffer[i] == rd.stale(i)
  {
    seq(length, i requires 0 <= i => if i < |data| && i < rd.delivered then data[i] else rd.stale(i))
  }

  /** The disk after `fopen(path, "w")` followed by `fwrite` of `bytes`
      and `fclose`: the file holds exactly those bytes, nothing else changes. */
  function Store(disk: Disk, path: string, bytes: seq<byte>): (after: Disk)
    ensures after.writable == disk.writable
    ensures after.files.Keys == disk.files.Keys + {path}
    ensures after.files[path] == bytes
    ensures forall q | q in disk.files && q != path :: after.files[q] == disk.files[q]
  {
    Disk(disk.files[path := bytes], disk.writable)
  }
}
