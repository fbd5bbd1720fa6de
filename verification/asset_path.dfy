/** Path synthesis as the `waterlily_` and `ageratum_` loaders and writers
    do it: `snprintf` of "%s/%s/%s%s" with the resource root, the type's
    subdirectory, the basename and the type's extension into a 512-byte
    buffer. Each `char` stands for one byte of the C string. */
module AssetPath {
  import opened Printf
  import opened Registry

  /** Size of the path buffer handed to `snprintf`, terminating NUL included. */
  const MaxPathLength: nat := 512

  /** Longest path the buffer can hold. */
  const Room: nat := MaxPathLength - 1

  const BaseDirectory: string := "./Resources"

  const PathFormat: string := "%s/%s/%s%s"

  /** The directory part of the path, slashes included. */
  function Folder(t: FileType): (f: string)
    ensures 13 <= |f| <= 20 && f[12] == Directory(t)[0]
  {
    BaseDirectory + "/" + Directory(t) + "/"
  }

  /** The path the format describes before any truncation. */
  function Untruncated(t: FileType, name: string): string
  {
    Folder(t) + name + Extension(t)
  }

  /** The format string puts its four arguments, in order, around two
      slashes and nothing else. */
  lemma ExpandPathFormat(a: string, b: string, c: string, d: string)
    ensures Conversions(PathFormat) == 4
    ensures Expand(PathFormat, [a, b, c, d]) == a + "/" + b + "/" + c + d
  {
  }

  /** The path `loadFile` and `writeFile` open for a file of type `t` named
      `name`: the untruncated path if it fits in 511 bytes, and otherwise its
      first 511 bytes, silently. */
  function Path(t: FileType, name: string): (p: string)
    ensures p <= Untruncated(t, name)
    ensures |p| <= Room
    ensures |Untruncated(t, name)| <= Room ==> p == Untruncated(t, name)
    ensures |Untruncated(t, name)| > Room ==> |p| == Room
  {
    ExpandPathFormat(BaseDirectory, Directory(t), name, Extension(t));
    assert BaseDirectory + "/" + Directory(t) + "/" + name + Extension(t) == Untruncated(t, name);
    Snprintf(MaxPathLength, PathFormat, [BaseDirectory, Directory(t), name, Extension(t)])
  }

  /** The path fits in the buffer. */
  predicate Fits(t: FileType, name: string)
  {
    |Untruncated(t, name)| <= Room
  }

  /** Cutting `a + b + c` inside `b` keeps all of `a` and the front of `b`. */
  lemma CutInside(a: string, b: string, c: string, m: nat)
    requires |a| <= m <= |a| + |b|
    ensures (a + b + c)[..m] == a + b[..m - |a|]
  {
  }

  /** Every path begins with its folder: the folder alone never exceeds the
      buffer, so truncation can only shorten the name and extension. */
  lemma PathStartsWithFolder(t: FileType, name: string)
    ensures Folder(t) <= Path(t, name)
  {
  }

  /** Two different names that agree on every byte that reaches the buffer
      get the same path: truncation makes a long name indistinguishable from
      any other name with the same first bytes. */
  lemma LongNamesCollide(t: FileType, n1: string, n2: string, k: nat)
    requires k == Room - |Folder(t)|
    requires k <= |n1| && k <= |n2| && n1[..k] == n2[..k]
    ensures Path(t, n1) == Path(t, n2)
  {
    var f := Folder(t);
    var u1, u2 := Untruncated(t, n1), Untruncated(t, n2);
    CutInside(f, n1, Extension(t), Room);
    CutInside(f, n2, Extension(t), Room);
    assert u1[..Room] == f + n1[..k] == u2[..Room];
    assert |u1| > Room && |u2| > Room;
    assert Path(t, n1) == u1[..Room];
    assert Path(t, n2) == u2[..Room];
  }

  /** A concrete instance: a 600-byte name and the same name with one more
      byte open the same file. */
  lemma TruncationCollisionExample()
    ensures var long := seq(600, _ => 'a');
      long != long + "b" && Path(Text, long) == Path(Text, long + "b")
  {
  }

  /** If `n1 + e1 == n2 + e2` for two registry extensions, the split is the
      same on both sides. */
  lemma SplitAtExtension(n1: string, e1: string, n2: string, e2: string)
    requires IsExtension(e1) && IsExtension(e2)
    requires e1 == ".txt" <==> e2 == ".txt"
    requires n1 + e1 == n2 + e2
    ensures n1 == n2 && e1 == e2
  {
    var s := n1 + e1;
    assert s[|s| - 1] == e1[|e1| - 1];
    assert s[|s| - 1] == e2[|e2| - 1];
    assert e1 == e2;
    assert n1 == s[..|n1|] == n2;
  }

  lemma UntruncatedSplits(t: FileType, name: string)
    ensures Untruncated(t, name) == Folder(t) + (name + Extension(t))
  {
  }

  /** The two folders differ at the byte after "./Resources/", so a path
      names its folder unambiguously. */
  lemma SplitAtFolder(t1: FileType, r1: string, t2: FileType, r2: string)
    requires Folder(t1) + r1 == Folder(t2) + r2
    ensures Folder(t1) == Folder(t2) && r1 == r2
  {
    var u := Folder(t1) + r1;
    assert u[12] == Folder(t1)[12] == Directory(t1)[0];
    assert u[12] == Folder(t2)[12] == Directory(t2)[0];
    assert IsShader(t1) == IsShader(t2);
    assert r1 == u[|Folder(t1)|..] == r2;
  }

  /** Path strings that fit identify the asset: two of them are equal
      exactly when the basenames, the subdirectories and the extensions are.
      This is about strings; the operating system may still resolve two
      different strings ("a" and "./a" as names) to one file. */
  lemma PathInjective(t1: FileType, n1: string, t2: FileType, n2: string)
    requires Fits(t1, n1) && Fits(t2, n2)
    ensures Path(t1, n1) == Path(t2, n2)
      <==> n1 == n2 && Directory(t1) == Directory(t2) && Extension(t1) == Extension(t2)
  {
    if Path(t1, n1) == Path(t2, n2) {
      var e1, e2 := Extension(t1), Extension(t2);
      UntruncatedSplits(t1, n1);
      UntruncatedSplits(t2, n2);
      SplitAtFolder(t1, n1 + e1, t2, n2 + e2);
      ExtensionListed(t1);
      ExtensionListed(t2);
      SplitAtExtension(n1, e1, n2, e2);
    }
  }
}
