/** The `tkast_` copy of the library. Its header carries the same registry,
    constants and record as the other copies, but its loader differs: it
    takes the basename as a separate argument, formats the path as
    "%s/%s/%s" from the subdirectory, the basename and the extension (no
    resource root, and a slash before the extension), has no branch for a
    failed open, and allocates exactly `size` bytes without a terminator. */
module TkAssets {
  import opened Printf
  import opened Registry
  import opened FileSystem
  import AssetPath
  import Assets

  const PathFormat: string := "%s/%s/%s"

  /** The path the format describes before any truncation. */
  function Untruncated(t: FileType, name: string): string
  {
    Directory(t) + "/" + name + "/" + Extension(t)
  }

  lemma ExpandPathFormat(a: string, b: string, c: string)
    ensures Conversions(PathFormat) == 3
    ensures Expand(PathFormat, [a, b, c]) == a + "/" + b + "/" + c
  {
  }

  /** The path `tkast_loadFile` opens: subdirectory, slash, basename, slash,
      extension, cut to 511 bytes when longer. */
  function Path(t: FileType, name: string): (p: string)
    ensures p <= Untruncated(t, name)
    ensures |p| <= AssetPath.Room
    ensures |Untruncated(t, name)| <= AssetPath.Room ==> p == Untruncated(t, name)
    ensures |Untruncated(t, name)| > AssetPath.Room ==> |p| == AssetPath.Room
  {
    ExpandPathFormat(Directory(t), name, Extension(t));
    Snprintf(AssetPath.MaxPathLength, PathFormat, [Directory(t), name, Extension(t)])
  }

  /** The path starts with the subdirectory, not with the resource root: for
      a shader type it never lies under "./Resources". */
  lemma ShaderPathSkipsRoot(t: FileType, name: string)
    requires IsShader(t)
    ensures Path(t, name)[0] == 'S'
    ensures !(AssetPath.BaseDirectory <= Path(t, name))
  {
  }

  /** `tkast_loadFile`. The source has no branch for a failed `fopen` (it
      would pass a null handle to `fseek`), so opening must succeed. `size`
      becomes the file's length and `content` a buffer of exactly `size`
      bytes whose front holds what `fread` delivered, with no terminator; it
      always reports success. The record's own `name` is neither read nor
      changed: the basename comes from the `name` argument. */
  function LoadFile(disk: Disk, name: CString, file: Assets.AssetFile, rd: Fread): (r: Assets.LoadResult)
    requires OpensForReading(disk, Path(file.fileType, name))
    ensures r.ok
    ensures var data := disk.files[Path(file.fileType, name)];
      && r.file.name == file.name
      && r.file.fileType == file.fileType
      && r.file.size == |data|
      && |r.file.content| == r.file.size
      && forall i | 0 <= i < |data| && i < rd.delivered :: r.file.content[i] == data[i]
  {
    var data := disk.files[Path(file.fileType, name)];
    Assets.LoadResult(true, file.(content := ReadInto(data, |data|, rd), size := |data|))
  }

  /** Two records that differ only in their `name` field load the same file
      into the same content: the field plays no part in the load. */
  lemma LoadIgnoresRecordName(disk: Disk, name: CString, f1: Assets.AssetFile, f2: Assets.AssetFile, rd: Fread)
    requires f1.fileType == f2.fileType
    requires OpensForReading(disk, Path(f1.fileType, name))
    ensures LoadFile(disk, name, f1, rd).file == LoadFile(disk, name, f2, rd).file.(name := f1.name)
  {
  }

  /** A vertex shader "triangle" holding the single byte 7 loads into a
      one-byte buffer: there is no byte at index `size` for the terminator
      that the header's comment on `content` promises. */
  lemma NoTerminatorExample(stale: nat -> byte)
    ensures var disk := Disk(map[Path(Vertex, "triangle") := [7]], {});
      var r := LoadFile(disk, "triangle", Assets.AssetFile("triangle", [], 0, Vertex), Fread(1, stale));
      r.ok && r.file.size == 1 && r.file.content == [7]
  {
    var disk := Disk(map[Path(Vertex, "triangle") := [7]], {});
    var r := LoadFile(disk, "triangle", Assets.AssetFile("triangle", [], 0, Vertex), Fread(1, stale));
    assert |r.file.content| == 1 && r.file.content[0] == 7;
  }

  /** The same file named "triangle" of type Vertex is looked for at two
      different places by this loader and by the other copies. */
  lemma PathFormatDivergesExample()
    ensures Path(Vertex, "triangle") == "Shaders/triangle/.vert"
    ensures AssetPath.Path(Vertex, "triangle") == "./Resources/Shaders/triangle.vert"
  {
    assert Untruncated(Vertex, "triangle") == "Shaders/triangle/.vert";
    assert AssetPath.Untruncated(Vertex, "triangle") == "./Resources/Shaders/triangle.vert";
  }

  /** The loader the header documents: the basename taken from `name`, the
      path built like the other copies (resource root, subdirectory,
      basename with its extension), failure reported with the record
      unchanged when the file does not open, and a NUL after the content. */
  function LoadFileFixed(disk: Disk, name: CString, file: Assets.AssetFile, rd: Fread): (r: Assets.LoadResult)
    ensures r.ok <==> OpensForReading(disk, AssetPath.Path(file.fileType, name))
    ensures !r.ok ==> r.file == file
    ensures r.ok ==>
      var data := disk.files[AssetPath.Path(file.fileType, name)];
      && r.file.name == file.name
      && r.file.fileType == file.fileType
      && r.file.size == |data|
      && |r.file.content| == r.file.size + 1
      && r.file.content[r.file.size] == 0
      && forall i | 0 <= i < |data| && i < rd.delivered :: r.file.content[i] == data[i]
  {
    var loaded := Assets.LoadFile(disk, file.(name := name), rd);
    if loaded.ok then Assets.LoadResult(true, loaded.file.(name := file.name))
    else Assets.LoadResult(false, file)
  }

  /** Given the record's own name, the corrected loader is the loader of the
      other two copies. */
  lemma FixedMatchesOtherCopies(disk: Disk, file: Assets.AssetFile, rd: Fread)
    ensures LoadFileFixed(disk, file.name, file, rd) == Assets.LoadFile(disk, file, rd)
  {
  }
}
