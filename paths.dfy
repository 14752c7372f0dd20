/**
 * Filesystem paths (`PathBuf`) as far as the editor inspects them: whether a path
 * can be shown as text (`Path::to_str`) and what its extension is (`Path::extension`),
 * which picks the highlighting syntax.
 *
 * A path is a sequence of units. A unit is a character, or a `Raw` byte of an OS path
 * that is not decoded as a character. A raw byte is never ASCII (it is 0x80 or above),
 * so it is never mistaken for the separator '/' or a dot.
 */
module Paths {
  import opened Wrappers

  /** A byte outside ASCII. */
  type RawByte = b: bv8 | b >= 0x80 witness 0x80

  datatype PathUnit = Char(c: char) | Raw(b: RawByte)

  type Path = seq<PathUnit>

  const SEPARATOR: PathUnit := Char('/')
  const DOT: PathUnit := Char('.')

  /** Every unit of `p` is a character. */
  predicate IsText(p: Path)
    decreases |p|
  {
    p == [] || (p[0].Char? && IsText(p[1..]))
  }

  /** The path spelled by a string. */
  function FromStr(s: string): (p: Path)
    ensures |p| == |s| && forall i :: 0 <= i < |s| ==> p[i] == Char(s[i])
    decreases |s|
  {
    if s == [] then [] else [Char(s[0])] + FromStr(s[1..])
  }

  /** `Path::to_str`: the path as text, or None when some unit is not a character. */
  function ToStr(p: Path): (r: Option<string>)
    ensures r.Some? <==> IsText(p)
    ensures r.Some? ==> FromStr(r.value) == p
    decreases |p|
  {
    if p == [] then Some("")
    else match p[0]
      case Raw(_) => None
      case Char(c) =>
        match ToStr(p[1..])
        case None => None
        case Some(rest) =>
          assert ([c] + rest)[1..] == rest;
          assert p == [p[0]] + p[1..];
          Some([c] + rest)
  }

  lemma {:induction false} ToStrFromStr(s: string)
    ensures ToStr(FromStr(s)) == Some(s)
    decreases |s|
  {
    if s != [] {
      assert FromStr(s)[1..] == FromStr(s[1..]);
      ToStrFromStr(s[1..]);
      assert [s[0]] + s[1..] == s;
    }
  }

  /** The index of the last occurrence of `u` in `p`. */
  function LastIndexOf(p: Path, u: PathUnit): (r: Option<nat>)
    ensures r.None? <==> u !in p
    ensures r.Some? ==> r.value < |p| && p[r.value] == u && u !in p[r.value + 1..]
  {
    if p == [] then None
    else if p[|p| - 1] == u then Some(|p| - 1)
    else
      var r := LastIndexOf(p[..|p| - 1], u);
      assert p == p[..|p| - 1] + [p[|p| - 1]];
      if r.Some? then
        assert p[r.value + 1..] == p[..|p| - 1][r.value + 1..] + [p[|p| - 1]];
        r
      else r
  }

  lemma {:induction false} LastIndexOfAfterLast(p: Path, u: PathUnit, q: Path)
    requires u !in q
    ensures LastIndexOf(p + [u] + q, u) == Some(|p|)
  {
    var whole := p + [u] + q;
    assert whole[|p|] == u;
    assert whole[|p| + 1..] == q;
  }

  /** `p` without its trailing separators. */
  function TrimTrailingSeparators(p: Path): (r: Path)
    ensures |r| <= |p| && r == p[..|r|]
    ensures r == [] || r[|r| - 1] != SEPARATOR
  {
    if p != [] && p[|p| - 1] == SEPARATOR then TrimTrailingSeparators(p[..|p| - 1]) else p
  }

  /** What follows the last separator of `p`; all of `p` when it has none. */
  function LastComponent(p: Path): (r: Path)
    ensures SEPARATOR !in r
    ensures |r| <= |p| && r == p[|p| - |r|..]
    ensures |r| < |p| ==> p[|p| - |r| - 1] == SEPARATOR
  {
    match LastIndexOf(p, SEPARATOR)
    case None => p
    case Some(i) => p[i + 1..]
  }

  /** Every unit of `p` is a separator. */
  predicate AllSeparators(p: Path) {
    forall i :: 0 <= i < |p| ==> p[i] == SEPARATOR
  }

  /**
   * `Path::file_name`: the last component, unless it is empty, "." or "..". The name is
   * what follows the last separator once the trailing separators are dropped.
   */
  function FileName(p: Path): (r: Option<Path>)
    ensures r.Some? ==> SEPARATOR !in r.value
    ensures r.Some? ==> r.value != [] && r.value != [DOT] && r.value != [DOT, DOT]
    ensures AllSeparators(p) ==> r.None?
  {
    var name := LastComponent(TrimTrailingSeparators(p));
    if name == [] || name == [DOT] || name == [DOT, DOT] then None else Some(name)
  }

  /**
   * A file name is the final component of its path: it ends where the trailing
   * separators begin, and starts at the start of the path or just after a separator.
   */
  lemma FileNameIsFinalComponent(p: Path, name: Path)
    requires FileName(p) == Some(name)
    ensures
      var t := TrimTrailingSeparators(p);
      |name| <= |t| && name == t[|t| - |name|..] &&
      (|name| < |t| ==> t[|t| - |name| - 1] == SEPARATOR) &&
      AllSeparators(p[|t|..])
  {
    var t := TrimTrailingSeparators(p);
    var c := LastComponent(t);
    assert |c| <= |t| && c == t[|t| - |c|..];
    assert |c| < |t| ==> t[|t| - |c| - 1] == SEPARATOR;
    assert name == c;
    assert |name| < |t| ==> t[|t| - |name| - 1] == SEPARATOR;
    TrimmedTailIsSeparators(p);
  }

  /** What trimming drops is separators only. */
  lemma {:induction false} TrimmedTailIsSeparators(p: Path)
    ensures AllSeparators(p[|TrimTrailingSeparators(p)|..])
    decreases |p|
  {
    var n := |TrimTrailingSeparators(p)|;
    if p != [] && p[|p| - 1] == SEPARATOR {
      var q := p[..|p| - 1];
      TrimmedTailIsSeparators(q);
      assert TrimTrailingSeparators(p) == TrimTrailingSeparators(q);
      forall k | 0 <= k < |p| - n ensures p[n..][k] == SEPARATOR {
        if n + k < |q| {
          assert p[n..][k] == q[n..][k];
        }
      }
    }
  }

  /**
   * `Path::extension`: what follows the last dot of the file name, provided the dot
   * is not the first unit of the name (".bashrc" has no extension).
   */
  function Extension(p: Path): (r: Option<Path>)
    ensures r.Some? ==> FileName(p).Some?
    ensures r.Some? ==> DOT !in r.value && SEPARATOR !in r.value
    ensures r.Some? ==>
      var name := FileName(p).value;
      |r.value| + 1 < |name| && name[|name| - |r.value| - 1] == DOT && name[|name| - |r.value|..] == r.value
    ensures FileName(p).Some? && DOT !in FileName(p).value ==> r.None?
  {
    match FileName(p)
    case None => None
    case Some(name) =>
      match LastIndexOf(name, DOT)
      case None => None
      case Some(i) =>
        if i == 0 then None
        else Some(name[i + 1..])
  }

  lemma TrimWithoutTrailingSeparator(p: Path)
    requires p == [] || p[|p| - 1] != SEPARATOR
    ensures TrimTrailingSeparators(p) == p
  {
  }

  /** The last component of `dir + name` is `name`. */
  lemma {:induction false} LastComponentAfterDirectory(dir: Path, name: Path)
    requires dir == [] || dir[|dir| - 1] == SEPARATOR
    requires SEPARATOR !in name
    ensures LastComponent(dir + name) == name
  {
    if dir == [] {
      assert dir + name == name;
    } else {
      var d := dir[..|dir| - 1];
      assert dir + name == d + [SEPARATOR] + name;
      LastIndexOfAfterLast(d, SEPARATOR, name);
      assert (dir + name)[|dir|..] == name;
    }
  }

  /** Trailing separators after a component are dropped before the component is taken. */
  lemma {:induction false} TrimAfterComponent(q: Path, seps: Path)
    requires q != [] && q[|q| - 1] != SEPARATOR
    requires AllSeparators(seps)
    ensures TrimTrailingSeparators(q + seps) == q
    decreases |seps|
  {
    if seps == [] {
      assert q + seps == q;
      TrimWithoutTrailingSeparator(q);
    } else {
      var shorter := seps[..|seps| - 1];
      assert (q + seps)[..|q + seps| - 1] == q + shorter;
      TrimAfterComponent(q, shorter);
    }
  }

  /**
   * The file name of `dir + name + seps`, for a directory prefix `dir`, a non-empty
   * component `name` and trailing separators `seps`: the component itself, except that
   * "." and ".." name no file ("a/.." and "a/../" have none).
   */
  lemma {:induction false} FileNameOfComponent(dir: Path, name: Path, seps: Path)
    requires dir == [] || dir[|dir| - 1] == SEPARATOR
    requires name != [] && SEPARATOR !in name
    requires AllSeparators(seps)
    ensures FileName(dir + name + seps) == if name == [DOT] || name == [DOT, DOT] then None else Some(name)
  {
    var q := dir + name;
    assert q[|q| - 1] == name[|name| - 1];
    TrimAfterComponent(q, seps);
    LastComponentAfterDirectory(dir, name);
  }

  /**
   * A path that ends in `stem.ext` (with `ext` free of dots and separators, and the
   * file name not ".."), followed by any number of trailing separators, has the
   * extension `ext`, whatever directories precede it.
   */
  lemma {:induction false} ExtensionOfNamedFile(dir: Path, stem: Path, ext: Path, seps: Path)
    requires dir == [] || dir[|dir| - 1] == SEPARATOR
    requires stem != [] && SEPARATOR !in stem
    requires DOT !in ext && SEPARATOR !in ext
    requires stem + [DOT] + ext != [DOT, DOT]
    requires AllSeparators(seps)
    ensures Extension(dir + stem + [DOT] + ext + seps) == Some(ext)
  {
    var name := stem + [DOT] + ext;
    var p := dir + stem + [DOT] + ext + seps;
    assert name[|name| - 1] != SEPARATOR by {
      if ext == [] { assert name[|name| - 1] == DOT; } else { assert name[|name| - 1] == ext[|ext| - 1]; }
    }
    assert SEPARATOR !in name;
    assert p == dir + name + seps;
    FileNameOfComponent(dir, name, seps);
    assert name != [DOT] by { assert |name| >= 2; }
    assert FileName(p) == Some(name);
    LastIndexOfAfterLast(stem, DOT, ext);
    assert name[|stem| + 1..] == ext;
  }
}
