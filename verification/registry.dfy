/** The file-type registry of the three copies of the library, identical up
    to the `waterlily_`, `ageratum_` and `tkast_` prefixes: a C enumeration and two `switch` functions mapping it to a
    filename extension and to a subdirectory under the resource root. */
module Registry {

  /** The enumerators in declaration order, so that their C values are 0..3.
      A C enum variable can hold any other integer too; `Unnamed` carries
      such a value and reaches the `default` branches. */
  datatype Kind = Text | Spirv | Vertex | Fragment | Unnamed(code: int)

  /** A value an enum variable can actually hold: `Unnamed` never aliases
      one of the four enumerators. */
  type FileType = k: Kind | k.Unnamed? ==> (k.code < 0 || 3 < k.code) witness Text

  /** The C value of a file type. */
  function Code(t: FileType): int
  {
    match t
    case Text => 0
    case Spirv => 1
    case Vertex => 2
    case Fragment => 3
    case Unnamed(c) => c
  }

  /** The file type an integer stored in the enum variable denotes. */
  function OfCode(c: int): (t: FileType)
    ensures Code(t) == c
  {
    if c == 0 then Text
    else if c == 1 then Spirv
    else if c == 2 then Vertex
    else if c == 3 then Fragment
    else Unnamed(c)
  }

  lemma OfCodeOfCode(t: FileType)
    ensures OfCode(Code(t)) == t
  {
  }

  /** The types whose files live in the shader subdirectory. */
  predicate IsShader(t: FileType)
  {
    t.Spirv? || t.Vertex? || t.Fragment?
  }

  /** The four extensions the registry can produce. */
  predicate IsExtension(ext: string)
  {
    ext == ".spv" || ext == ".vert" || ext == ".frag" || ext == ".txt"
  }

  /** `getExtension`: the suffix appended to the basename. */
  function Extension(t: FileType): (ext: string)
    ensures 4 <= |ext| <= 5 && ext[0] == '.'
    ensures ext == ".txt" <==> !IsShader(t)
  {
    match t
    case Spirv => ".spv"
    case Vertex => ".vert"
    case Fragment => ".frag"
    case _ => ".txt"
  }

  /** `getDirectory`: the subdirectory of the resource root. */
  function Directory(t: FileType): (dir: string)
    ensures 0 < |dir|
    ensures dir == "Shaders" <==> IsShader(t)
    ensures dir == "." <==> !IsShader(t)
  {
    if IsShader(t) then "Shaders" else "."
  }

  /** The registry again, as the table of records it amounts to: one row per
      enumerator, searched by C value, with a fallback row for every value
      that is not an enumerator. */
  datatype Entry = Entry(code: int, extension: string, directory: string)

  const Table: seq<Entry> :=
    [ Entry(0, ".txt", "."),
      Entry(1, ".spv", "Shaders"),
      Entry(2, ".vert", "Shaders"),
      Entry(3, ".frag", "Shaders") ]

  const Fallback: Entry := Entry(-1, ".txt", ".")

  /** The first row of `rows` with C value `c`, or `Fallback`. */
  function Lookup(rows: seq<Entry>, c: int): (e: Entry)
    ensures e == Fallback || e in rows
  {
    if |rows| == 0 then Fallback
    else if rows[0].code == c then rows[0]
    else Lookup(rows[1..], c)
  }

  /** The two `switch` statements agree with the table for every integer the
      enum variable can hold, so both functions are total and send every
      value without a `case` to the `.txt` / `.` fallback. */
  lemma SwitchesMatchTable(c: int)
    ensures Extension(OfCode(c)) == Lookup(Table, c).extension
    ensures Directory(OfCode(c)) == Lookup(Table, c).directory
  {
    assert Table[1..][1..][1..][1..] == [];
    if c == 0 {
      assert Lookup(Table, c) == Table[0];
    } else if c == 1 {
      assert Lookup(Table[1..], c) == Table[1];
    } else if c == 2 {
      assert Lookup(Table[1..][1..], c) == Table[2];
    } else if c == 3 {
      assert Lookup(Table[1..][1..][1..], c) == Table[3];
    } else {
      assert Lookup(Table, c) == Lookup(Table[1..], c) == Lookup(Table[1..][1..], c);
      assert Lookup(Table[1..][1..], c) == Lookup(Table[1..][1..][1..], c);
      assert Lookup(Table[1..][1..][1..], c) == Lookup(Table[1..][1..][1..][1..], c) == Fallback;
    }
  }

  lemma ExtensionListed(t: FileType)
    ensures IsExtension(Extension(t))
  {
  }

  /** Every extension is one of four, and the named enumerators each get
      their own: the extension tells a Vertex file from a Fragment file from
      a SPIR-V file. */
  lemma ExtensionDistinguishesShaders(t1: FileType, t2: FileType)
    requires IsShader(t1) || IsShader(t2)
    ensures Extension(t1) == Extension(t2) <==> t1 == t2
  {
  }
}
