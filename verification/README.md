# Typed asset files: path synthesis, load and write

A Dafny model of the asset-file layer of a small C rendering library. The
repository carries three copies of this layer under three prefixes:

- `waterlily_`: the inline implementation in `WLAssets.h` and the standalone `Source/WLAssets.c`;
- `ageratum_`: `Ageratum.h`;
- `tkast_`: `Include/TKAssets.h` and `Source/TKAssets.c`.

A file record has a basename, a type, a content buffer and a size. The type is
one of four enumerators: text, SPIR-V, vertex shader source and fragment
shader source. The three headers share one registry, identical up to the prefix. It maps a
type to a filename extension (`getExtension`) and to a subdirectory
(`getDirectory`). Out-of-range enum values fall through to `.txt` and `.`.

The waterlily and ageratum loaders and writers are the same code. They format
`"%s/%s/%s%s"` with the resource root `./Resources`, the subdirectory, the
basename and the extension. The result goes through `snprintf` into a
512-byte buffer, so a longer path is silently cut to its first 511 bytes.
`loadFile` fails, with the record untouched, when the path does not open.
Otherwise it sets `size` to the end-of-file offset and allocates `size + 1`
bytes. It reads into them, ignores the read count, stores a NUL at index
`size` and reports success. `writeFile` fails only when the path does not
open for writing. Otherwise it writes the first `size` bytes of the caller's
buffer and reports success.

The tkast loader differs. It takes the basename as a separate argument and
formats `"%s/%s/%s"` from subdirectory, basename and extension, so there is
no resource root and there is a slash before the extension. It has no branch
for a failed open. It allocates exactly `size` bytes and writes no
terminator.

## Modules

- `printf.dfy`, module `Printf`: expansion of a `%s`-only format string. Also
  `snprintf`'s bounded write, as in section 7.21.6.5 of ISO/IEC 9899:2011: at
  most n - 1 characters, then a NUL.
- `registry.dfy`, module `Registry`: the file-type enumeration, with
  `Unnamed(code)` for values outside the enumerators. Also the two `switch`
  functions and the registry as a table of records.
- `asset_path.dfy`, module `AssetPath`: the constants, the path of the
  waterlily and ageratum copies, the truncation law, injectivity of paths
  that fit, and the collisions that truncation causes.
- `file_system.dfy`, module `FileSystem`: the disk, modelled as a map from
  path strings to byte sequences plus the set of paths that open for writing.
  Also `fread` into a fresh buffer and the store of `fwrite`.
- `assets.dfy`, module `Assets`: `loadFile` and `writeFile` as pure
  transitions on the disk, with the write-then-load round trip.
- `tk_assets.dfy`, module `TkAssets`: the tkast path and loader as written,
  and a corrected loader.

Each `char` of a path stands for one byte of the C string. File contents are
sequences of `byte` (0..255). Sizes are unbounded naturals.

The size comes from `ftell` and the read count is never checked.

## Model

| member | source | states |
|---|---|---|
| Printf.Expand | WLAssets.h:64-66 | Each `%s` is replaced by the next argument and every other character is copied. A format with no conversion comes out unchanged. The output length is the format's length, minus two per conversion, plus the lengths of the consumed arguments. |
| Printf.Snprintf | WLAssets.h:63-66 | The string left in an n-byte buffer is a prefix of the full expansion and has at most n - 1 bytes. It is the whole expansion when that fits, and exactly n - 1 bytes when it does not. |
| Printf.SnprintfInto | Source/WLAssets.c:7-10 | At the buffer level: the buffer keeps its size and holds the truncated expansion, then a NUL. Bytes after the NUL are untouched. The return value is the untruncated length. |
| Registry.OfCode | WLAssets.h:8-14 | Every integer an enum variable can hold denotes exactly one file type, and that type's C value is the integer. |
| Registry.Extension | WLAssets.h:28-38 | The extension starts with '.' and has 4 or 5 bytes. It is ".txt" exactly when the type is not a shader type. |
| Registry.Directory | WLAssets.h:40-50 | The subdirectory is "Shaders" exactly for the SPIR-V, vertex and fragment types, and "." exactly for every other value. |
| Registry.SwitchesMatchTable | Include/TKAssets.h:28-50 | For every integer, both switches agree with the four-row registry table, and values without a row get the fallback ".txt" and ".". So both mappings are total. |
| Registry.ExtensionDistinguishesShaders | Ageratum.h:28-38 | When either type is a shader type, the two types have equal extensions exactly when they are the same type. |
| AssetPath.ExpandPathFormat | Ageratum.h:63-66 | The format "%s/%s/%s%s" has four conversions. It puts its arguments in order, with a slash after the first two and nothing else. |
| AssetPath.Path | WLAssets.h:63-66 | With the constants of WLAssets.h:25-26 (a 512-byte buffer and the root "./Resources"), the path is a prefix of "./Resources" + "/" + directory + "/" + name + extension, at most 511 bytes long. It equals that string when the string fits in 511 bytes and has exactly 511 bytes otherwise. |
| AssetPath.PathStartsWithFolder | Source/WLAssets.c:8-10 | Every path begins with the resource root and the type's subdirectory, whatever the name. Truncation only ever cuts the name and extension. |
| AssetPath.LongNamesCollide | WLAssets.h:63-66 | Two names that agree on every byte that reaches the buffer give the same path, even when they differ further on. |
| AssetPath.TruncationCollisionExample | Ageratum.h:63-66 | A 600-byte name and the same name with one more byte are different names with the same path. |
| AssetPath.PathInjective | WLAssets.h:64-66 | Two path strings that fit are equal exactly when their basenames, subdirectories and extensions are equal. So distinct assets never share a disk key while their paths fit. |
| FileSystem.ReadInto | WLAssets.h:80-81 | After `fread` into a fresh buffer of the given length, the delivered bytes equal the file's bytes. The rest keep what the allocation held. |
| FileSystem.Store | WLAssets.h:96-107 | After `fopen("w")`, `fwrite` and `fclose`, the path holds exactly the written bytes. Every other file and the set of writable paths is unchanged. |
| Assets.LoadFile | WLAssets.h:61-87 | Success exactly when the path opens for reading. On failure the record is unchanged. On success, name and type are kept and `size` is the file length. The content has size + 1 bytes with NUL at index `size`, and its delivered bytes are the file's. Success is reported even after a short read. |
| Assets.LoadCompleteRead | Source/WLAssets.c:20-27 | When the read delivers every byte, the loaded content is the file's bytes followed by one NUL. |
| Assets.WriteFile | WLAssets.h:89-109 | Success exactly when the path opens for writing. On failure the disk is unchanged. On success the file at the path holds the first `size` bytes of the buffer and becomes readable. No other file changes. |
| Assets.WriteThenLoad | Source/WLAssets.c:5-53 | After a successful write, a complete load of a record with the same name and type succeeds. It reports the written size and returns the written bytes followed by NUL, because both operations build the same path. |
| Assets.WriteLeavesOtherPaths | Ageratum.h:89-109 | A write leaves unchanged every load of an asset whose path differs. |
| Assets.WriteLeavesOtherAssets | Ageratum.h:61-109 | When both paths fit, a write leaves unchanged every load of an asset with another name or another extension, because their path strings differ. |
| TkAssets.ExpandPathFormat | Source/TKAssets.c:8-10 | The format "%s/%s/%s" has three conversions. It puts its arguments in order, with a slash between each pair. |
| TkAssets.Path | Source/TKAssets.c:7-10 | The path is a prefix of directory + "/" + name + "/" + extension, at most 511 bytes long. It equals that string when it fits and has exactly 511 bytes otherwise. |
| TkAssets.ShaderPathSkipsRoot | Source/TKAssets.c:8-10 | For a shader type the path begins with 'S' from "Shaders", so it never begins with the resource root "./Resources". |
| TkAssets.LoadFile | Source/TKAssets.c:5-24 | Always succeeds, but only when the path opens. `size` is the file length and the content has exactly `size` bytes, with no terminator. Delivered bytes are the file's. The record's name and type are kept. |
| TkAssets.LoadIgnoresRecordName | Source/TKAssets.c:5-9 | Records that differ only in their name field load identically. The basename comes from the separate argument. |
| TkAssets.NoTerminatorExample | Source/TKAssets.c:18-20 | A vertex shader "triangle" holding the one byte 7 loads as the one-byte buffer `[7]` with size 1. There is no byte for the NUL the header promises. |
| TkAssets.PathFormatDivergesExample | Source/TKAssets.c:8-10 | For "triangle" of vertex type, this loader opens "Shaders/triangle/.vert". The other copies open "./Resources/Shaders/triangle.vert". |
| TkAssets.LoadFileFixed | Include/TKAssets.h:16-26 | Corrected loader. It succeeds exactly when the resource-root path of the basename opens, and leaves the record unchanged otherwise. On success the content has size + 1 bytes with a NUL at index `size`. |
| TkAssets.FixedMatchesOtherCopies | Source/WLAssets.c:5-31 | Given the record's own name, the corrected loader gives the same result as the loader of the waterlily and ageratum copies. |

## Findings

| source | as written | input that shows it | evidently intended | confidence | as-written member | corrected member |
|---|---|---|---|---|---|---|
| Source/TKAssets.c:18-20 | allocates `size` bytes and stores no NUL after the content | a vertex file "triangle" holding the one byte 7: the content is `[7]`, one byte | content of size + 1 bytes ending in NUL, as the record's comment at Include/TKAssets.h:19 says and the other copies do | high; not executed | TkAssets.NoTerminatorExample | TkAssets.LoadFileFixed |
| Source/TKAssets.c:8-10 | formats "%s/%s/%s" over subdirectory, basename and extension; `tkast_baseDirectory` is unused | vertex file "triangle": the path is "Shaders/triangle/.vert" | "./Resources/Shaders/triangle.vert", the format "%s/%s/%s%s" of the other copies | medium; not executed | TkAssets.PathFormatDivergesExample | TkAssets.LoadFileFixed |

## Left out

- The C library calls `fopen`, `fseek`, `ftell`, `fread`, `fwrite` and `fclose` are replaced by the `FileSystem.Disk` value. Opening for reading succeeds exactly on existing paths, and opening for writing exactly on the paths in `writable`. Text mode and binary mode are not distinguished.
- Assets.WriteFile: `fwrite` is taken to write all `size` bytes. A short write, such as a full disk, is not modelled. The source ignores the count and would report success anyway.
- Assets.LoadFile: the size is the file length. An `ftell` failure (-1) and the widths of `long` and `size_t`, including `size + 1` wrapping around, are not modelled.
- TkAssets.LoadFile: requires the open to succeed. The source passes the null handle of a failed open to `fseek`, which is undefined behaviour. `TkAssets.LoadFileFixed` reports that case as a failure.
- The `printf` diagnostics on a failed open, `malloc` failure and the path buffers that are never freed are not modelled. They are logging and memory plumbing with no effect on results.
- `tkast_writeFile` is declared at Include/TKAssets.h:54, but no definition of it is part of this model.
- The prototype `tkast_loadFile(tkast_file_t *)` at Include/TKAssets.h:52 disagrees with the definition at Source/TKAssets.c:5. That is a build matter; the model follows the definition.
- Disk keys are literal path strings. The operating system's resolution of `.`, `..`, repeated `/`, symbolic links and case-insensitive names is not modelled. So `AssetPath.PathInjective` and `Assets.WriteLeavesOtherAssets` speak of distinct path strings, not of distinct files. In the C program, Vertex "a" and Vertex "./a" both fit and give different strings, "./Resources/Shaders/a.vert" and "./Resources/Shaders/./a.vert", yet the operating system opens the same file for both.
- Conversions other than `%s` in format strings are not modelled, because the library uses no other.
- Paths are strings of `char`, one per byte. No multi-byte encoding is modelled.
