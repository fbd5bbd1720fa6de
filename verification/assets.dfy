/** `loadFile` and `writeFile` of the `waterlily_` library (the inline
    implementation in its header and the standalone source file) and of its
    `ageratum_` copy, which are the same code under another prefix. Both
    build the path of the file from its type and name and then act on the
    disk through that one path. */
module Assets {
  import opened Printf
  import opened Registry
  import opened AssetPath
  import opened FileSystem

  /** The file record: the caller sets `name` and `fileType`; `loadFile`
      fills `content` and `size`, and `writeFile` reads `size`. */
  datatype AssetFile = AssetFile(name: CString, content: seq<byte>, size: nat, fileType: FileType)

  datatype LoadResult = LoadResult(ok: bool, file: AssetFile)

  datatype WriteResult = WriteResult(ok: bool, disk: Disk)

  /** The path both operations open for `file`. */
  function PathOf(file: AssetFile): string
  {
    Path(file.fileType, file.name)
  }

  /** `loadFile`. If the path does not open for reading, it reports failure
      and the record is unchanged. Otherwise `size` becomes the file's length,
      `content` a buffer of size + 1 bytes whose last byte is NUL and whose
      front holds what `fread` delivered, and it reports success whether or
      not the read was complete. `rd` stands for that `fread`. */
  function LoadFile(disk: Disk, file: AssetFile, rd: Fread): (r: LoadResult)
    ensures r.ok <==> OpensForReading(disk, PathOf(file))
    ensures !r.ok ==> r.file == file
    ensures r.ok ==>
      var data := disk.files[PathOf(file)];
      && r.file.name == file.name
      && r.file.fileType == file.fileType
      && r.file.size == |data|
      && |r.file.content| == r.file.size + 1
      && r.file.content[r.file.size] == 0
      && forall i | 0 <= i < |data| && i < rd.delivered :: r.file.content[i] == data[i]
  {
    var path := PathOf(file);
    if !OpensForReading(disk, path) then LoadResult(false, file)
    else
      var data := disk.files[path];
      var buffer := ReadInto(data, |data| + 1, rd);
      LoadResult(true, file.(content := buffer[|data| := 0], size := |data|))
  }

  /** With a complete read the loaded content is exactly the file's bytes
      followed by one NUL. */
  lemma LoadCompleteRead(disk: Disk, file: AssetFile, rd: Fread)
    requires OpensForReading(disk, PathOf(file))
    requires |disk.files[PathOf(file)]| <= rd.delivered
    ensures LoadFile(disk, file, rd).file.content == disk.files[PathOf(file)] + [0]
  {
  }

  /** `writeFile`. If the path does not open for writing it reports failure
      and the disk is unchanged; otherwise the file at that path holds the
      first `size` bytes of `contents`, nothing else on the disk changes, and
      it reports success. The caller must supply at least `size` bytes. */
  function WriteFile(disk: Disk, file: AssetFile, contents: seq<byte>): (r: WriteResult)
    requires file.size <= |contents|
    ensures r.ok <==> OpensForWriting(disk, PathOf(file))
    ensures !r.ok ==> r.disk == disk
    ensures r.ok ==>
      && OpensForReading(r.disk, PathOf(file))
      && r.disk.files[PathOf(file)] == contents[..file.size]
      && r.disk.writable == disk.writable
      && r.disk.files.Keys == disk.files.Keys + {PathOf(file)}
      && forall q | q in disk.files && q != PathOf(file) :: r.disk.files[q] == disk.files[q]
  {
    var path := PathOf(file);
    if !OpensForWriting(disk, path) then WriteResult(false, disk)
    else WriteResult(true, Store(disk, path, contents[..file.size]))
  }

  /** Write, then load a record with the same name and type: the load
      succeeds, reports the written size, and returns the written bytes with
      a NUL after them. */
  lemma WriteThenLoad(disk: Disk, file: AssetFile, contents: seq<byte>, reader: AssetFile, stale: nat -> byte)
    requires file.size <= |contents|
    requires WriteFile(disk, file, contents).ok
    requires reader.name == file.name && reader.fileType == file.fileType
    ensures var written := contents[..file.size];
      LoadFile(WriteFile(disk, file, contents).disk, reader, CompleteRead(stale, written))
        == LoadResult(true, reader.(content := written + [0], size := file.size))
  {
  }

  /** Writing one asset leaves every load of an asset at another path as it
      was. */
  lemma WriteLeavesOtherPaths(disk: Disk, file: AssetFile, contents: seq<byte>, other: AssetFile, rd: Fread)
    requires file.size <= |contents|
    ensures PathOf(other) != PathOf(file) ==>
      LoadFile(WriteFile(disk, file, contents).disk, other, rd) == LoadFile(disk, other, rd)
  {
  }

  /** Two assets whose paths fit and whose names or extensions differ have
      different path strings, so on the disk, which is keyed by those
      strings, writing one leaves loads of the other as they were. */
  lemma WriteLeavesOtherAssets(disk: Disk, file: AssetFile, contents: seq<byte>, other: AssetFile, rd: Fread)
    requires file.size <= |contents|
    requires Fits(file.fileType, file.name) && Fits(other.fileType, other.name)
    requires other.name != file.name || Extension(other.fileType) != Extension(file.fileType)
    ensures LoadFile(WriteFile(disk, file, contents).disk, other, rd) == LoadFile(disk, other, rd)
  {
    PathInjective(other.fileType, other.name, file.fileType, file.name);
    WriteLeavesOtherPaths(disk, file, contents, other, rd);
  }
}
