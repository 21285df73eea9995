/**
 * A model of the parts of Python's `pathlib` and `os.path` the core uses.
 * A path is absolute or relative plus its list of parts; parsing a string
 * drops empty parts and `.` (so `Path("a//b/.")` is `a/b`) but keeps `..`,
 * as pathlib does.  Joining an absolute string replaces the base.
 */
module Paths {
  import opened Strings

  datatype FsPath = FsPath(absolute: bool, parts: seq<string>)

  /** A single part pathlib keeps as it is. */
  predicate IsPart(n: string) {
    n != "" && n != "." && '/' !in n
  }

  predicate WellFormed(p: FsPath) {
    forall k :: 0 <= k < |p.parts| ==> IsPart(p.parts[k])
  }

  function DropEmptyAndDot(ps: seq<string>): (r: seq<string>)
    requires forall k :: 0 <= k < |ps| ==> '/' !in ps[k]
    ensures forall k :: 0 <= k < |r| ==> IsPart(r[k])
  {
    if ps == [] then []
    else if ps[0] == "" || ps[0] == "." then DropEmptyAndDot(ps[1..])
    else [ps[0]] + DropEmptyAndDot(ps[1..])
  }

  /** The parts pathlib keeps from a path string. */
  function PathParts(s: string): (r: seq<string>)
    ensures forall k :: 0 <= k < |r| ==> IsPart(r[k])
  {
    DropEmptyAndDot(Split(s, '/'))
  }

  /** `Path(s)` */
  function Parse(s: string): (p: FsPath)
    ensures WellFormed(p)
  {
    FsPath(StartsWith(s, "/"), PathParts(s))
  }

  /** `p / s` */
  function Join(p: FsPath, s: string): FsPath {
    if StartsWith(s, "/") then Parse(s) else FsPath(p.absolute, p.parts + PathParts(s))
  }

  /** `p.name` */
  function Name(p: FsPath): string {
    if p.parts == [] then "" else p.parts[|p.parts| - 1]
  }

  /** `p.parent` */
  function Parent(p: FsPath): FsPath {
    if p.parts == [] then p else FsPath(p.absolute, p.parts[..|p.parts| - 1])
  }

  /** `os.path.basename(s)`: what follows the last `/`. */
  function Basename(s: string): (r: string)
    ensures '/' !in r
  {
    if s == [] || s[|s| - 1] == '/' then [] else Basename(s[..|s| - 1]) + [s[|s| - 1]]
  }

  /** `s.rstrip("/")` */
  function RStripSlash(s: string): string {
    if s != [] && s[|s| - 1] == '/' then RStripSlash(s[..|s| - 1]) else s
  }

  /** A string that is a single part parses to exactly that part. */
  lemma PartParses(n: string)
    requires IsPart(n)
    ensures PathParts(n) == [n]
  {
    SplitWithoutSep(n, '/');
    assert DropEmptyAndDot([n]) == [n] + DropEmptyAndDot([n][1..]);
    assert [n][1..] == [];
  }

  /** Joining a single part appends it. */
  lemma JoinPart(p: FsPath, n: string)
    requires IsPart(n)
    ensures Join(p, n) == FsPath(p.absolute, p.parts + [n])
  {
    PartParses(n);
  }
}
