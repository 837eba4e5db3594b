/** The part of `pathlib.PurePosixPath` the scripts rely on: building a
    path from a string, `str(path)`, `path / name`, `.name`, `.parent`
    and `.stem`. */
module Paths {
  import opened Strings

  /** A POSIX path: whether it starts at the root, and its components. */
  datatype Path = Path(rooted: bool, parts: seq<string>)

  /** What pathlib keeps as a component: non-empty, not `.`, no `/`. */
  predicate IsComponent(p: string) { p != "" && p != "." && '/' !in p }

  predicate Valid(p: Path) { forall i {:trigger p.parts[i]} :: 0 <= i < |p.parts| ==> IsComponent(p.parts[i]) }

  /** Drops the empty and `.` pieces of a split path string. */
  function Components(pieces: seq<string>): (r: seq<string>)
    ensures |r| <= |pieces|
  {
    if pieces == [] then []
    else
      var rest := Components(pieces[1..]);
      if pieces[0] == "" || pieces[0] == "." then rest else [pieces[0]] + rest
  }

  /** The pieces kept from separator-free pieces are components. */
  lemma {:induction false} ComponentsValid(pieces: seq<string>)
    requires forall i :: 0 <= i < |pieces| ==> '/' !in pieces[i]
    ensures forall i :: 0 <= i < |Components(pieces)| ==> IsComponent(Components(pieces)[i])
  {
    if pieces != [] {
      assert forall i :: 0 <= i < |pieces[1..]| ==> pieces[1..][i] == pieces[i + 1];
      ComponentsValid(pieces[1..]);
    }
  }

  lemma {:induction false} ComponentsConcat(a: seq<string>, b: seq<string>)
    ensures Components(a + b) == Components(a) + Components(b)
  {
    if a == [] {
      assert a + b == b;
    } else {
      assert (a + b)[0] == a[0] && (a + b)[1..] == a[1..] + b;
      ComponentsConcat(a[1..], b);
    }
  }

  lemma {:induction false} ComponentsOfComponents(ps: seq<string>)
    requires forall i {:trigger ps[i]} :: 0 <= i < |ps| ==> IsComponent(ps[i])
    ensures Components(ps) == ps
  {
    if ps != [] {
      ComponentsOfComponents(ps[1..]);
    }
  }

  /** `PurePosixPath(s)`. */
  function Parse(s: string): (p: Path)
    ensures Valid(p)
    ensures p.rooted <==> (s != "" && s[0] == '/')
  {
    SplitNoSlash(s);
    ComponentsValid(Split(s));
    Path(s != "" && s[0] == '/', Components(Split(s)))
  }

  /** `str(p)`: components joined by `/`, `/` in front of a rooted path,
      and `.` for the empty relative path. */
  function Str(p: Path): string
  {
    if p.parts == [] then (if p.rooted then "/" else ".")
    else if p.rooted then "/" + JoinSlash(p.parts)
    else JoinSlash(p.parts)
  }

  lemma {:induction false} JoinSlashHead(parts: seq<string>)
    requires parts != [] && parts[0] != ""
    ensures JoinSlash(parts)[0] == parts[0][0]
  {
  }

  /** Printing a path and parsing the text gives back the same path. */
  lemma ParseStr(p: Path)
    requires Valid(p)
    ensures Parse(Str(p)) == p
  {
    var s := Str(p);
    if p.parts == [] {
      if p.rooted {
        assert s == "" + "/" + "";
        SplitConcat("", "");
        assert Split(s) == ["", ""];
        assert ["", ""][1..] == [""] && [""][1..] == [];
        assert Components([""]) == [];
        assert Components(["", ""]) == [];
      } else {
        SplitPlain(".");
        assert ["."][1..] == [];
        assert Components(["."]) == [];
      }
    } else {
      var j := JoinSlash(p.parts);
      SplitJoin(p.parts);
      ComponentsOfComponents(p.parts);
      if p.rooted {
        assert s == "" + "/" + j;
        SplitConcat("", j);
        ComponentsConcat([""], p.parts);
      } else {
        JoinSlashHead(p.parts);
      }
    }
  }

  /** `p / s`: an absolute `s` replaces `p`, a relative one is appended. */
  function Join(p: Path, s: string): (r: Path)
    ensures Valid(p) ==> Valid(r)
  {
    var q := Parse(s);
    if q.rooted then q else Path(p.rooted, p.parts + q.parts)
  }

  /** Appending a single component adds exactly that component. */
  lemma JoinComponent(p: Path, n: string)
    requires IsComponent(n)
    ensures Join(p, n) == Path(p.rooted, p.parts + [n])
  {
    SplitPlain(n);
    assert n[0] in n;
    assert Components([n]) == [n] by { assert [n][1..] == []; }
  }

  /** `str(p / n)` is `str(p) + "/" + n` for a single component `n` below a
      non-empty relative path. */
  lemma StrJoin(p: Path, n: string)
    requires Valid(p) && p.parts != [] && !p.rooted && IsComponent(n)
    ensures Str(Join(p, n)) == Str(p) + "/" + n
  {
    JoinComponent(p, n);
    JoinSlashSnoc(p.parts, n);
  }

  /** What `str(p / n)` puts before a single component `n`. */
  function DirPrefix(p: Path): string
  {
    if p.parts == [] then (if p.rooted then "/" else "") else Str(p) + "/"
  }

  /** `str(p / n)` is the directory prefix followed by `n` for every
      single component `n`. */
  lemma JoinName(p: Path, n: string)
    requires Valid(p) && IsComponent(n)
    ensures Str(Join(p, n)) == DirPrefix(p) + n
  {
    JoinComponent(p, n);
    if p.parts != [] {
      JoinSlashSnoc(p.parts, n);
    } else {
      assert p.parts + [n] == [n];
    }
  }

  /** A name followed by a suffix such as `.mp3` is one component. */
  lemma ComponentWithSuffix(base: string, suffix: string)
    requires '/' !in base && IsComponent(suffix) && |suffix| >= 2
    ensures IsComponent(base + suffix)
  {
    var name := base + suffix;
    forall k | 0 <= k < |name| ensures name[k] != '/' {
      if k < |base| { assert name[k] == base[k]; } else { assert name[k] == suffix[k - |base|]; }
    }
  }

  /** `name => str(dir / name)`. */
  function PathUnder(dir: Path): string -> string
  {
    (name: string) => Str(Join(dir, name))
  }

  /** `p.name`: the last component, or `""` for `.` and `/`. */
  function Name(p: Path): (n: string)
    ensures Valid(p) && p.parts != [] ==> IsComponent(n)
  {
    if p.parts == [] then "" else p.parts[|p.parts| - 1]
  }

  /** `p.parent`: drops the last component; `.` and `/` are their own parent. */
  function Parent(p: Path): (q: Path)
    ensures Valid(p) ==> Valid(q)
    ensures q.rooted == p.rooted
    ensures p.parts != [] ==> q.parts + [Name(p)] == p.parts
  {
    if p.parts == [] then p else Path(p.rooted, p.parts[..|p.parts| - 1])
  }

  /** `name.rfind(".")`: the index of the last dot, or -1. */
  function LastDot(s: string): (i: int)
    ensures -1 <= i < |s|
    ensures i >= 0 ==> s[i] == '.'
    ensures forall j :: i < j < |s| ==> s[j] != '.'
  {
    if s == [] then -1
    else if s[|s| - 1] == '.' then |s| - 1
    else LastDot(s[..|s| - 1])
  }

  /** `PurePath.stem` of a file name: the name without its last suffix,
      where a suffix needs a dot that is neither first nor last. */
  function Stem(name: string): string
  {
    var i := LastDot(name);
    if 0 < i < |name| - 1 then name[..i] else name
  }

  /** A non-empty base followed by one extension has that base as stem. */
  lemma StemOfExtension(base: string, ext: string)
    requires base != "" && ext != "" && '.' !in ext
    ensures Stem(base + "." + ext) == base
  {
    var name := base + "." + ext;
    assert name[|base|] == '.';
    forall j | |base| < j < |name| ensures name[j] != '.' {
      assert name[j] == ext[j - |base| - 1];
    }
    assert name[..|base|] == base;
  }
}
