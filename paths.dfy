/**
 * POSIX `pathlib` paths as the core uses them: a path is its `parts` tuple,
 * where an absolute path starts with its anchor ("/"), exactly as
 * `PurePosixPath("/a/b").parts == ("/", "a", "b")`.
 */
module Paths {
  import opened Wrappers
  import Strings

  datatype Path = Path(parts: seq<string>)

  /** The path starts with an anchor part ("/" or "//"). */
  predicate HasAnchor(p: Path) {
    |p.parts| > 0 && |p.parts[0]| > 0 && p.parts[0][0] == '/'
  }

  /** `a in p.parents`: `a` is a proper ancestor of `p`; an anchored path's parents all keep the anchor. */
  predicate IsAncestor(a: Path, p: Path) {
    && |a.parts| < |p.parts|
    && a.parts == p.parts[..|a.parts|]
    && (HasAnchor(p) ==> |a.parts| >= 1)
  }

  /** `p.is_relative_to(root)`: `p` is `root` or lies below it. */
  predicate IsRelativeTo(p: Path, root: Path) {
    p == root || IsAncestor(root, p)
  }

  /** The parts of `p.relative_to(root)`, or None where Python raises `ValueError`. */
  function RelativeTo(p: Path, root: Path): (r: Option<seq<string>>)
    ensures r.Some? <==> IsRelativeTo(p, root)
    ensures r.Some? ==> p.parts == root.parts + r.value
  {
    if IsRelativeTo(p, root) then Some(p.parts[|root.parts|..]) else None
  }

  /** `str(p)`: the anchor, then the other parts joined by "/"; "." for the empty path. */
  function Str(p: Path): string {
    if HasAnchor(p) then p.parts[0] + Strings.Join(p.parts[1..], "/")
    else if p.parts == [] then "."
    else Strings.Join(p.parts, "/")
  }

  /** `p.name`: the last part, or "" when there is none besides the anchor. */
  function Name(p: Path): (r: string)
    ensures r != "" ==> p.parts != [] && r == Strings.Last(p.parts)
  {
    if p.parts == [] || (|p.parts| == 1 && HasAnchor(p)) then "" else Strings.Last(p.parts)
  }

  /** The anchor `PurePosixPath(s)` takes from `s`: two leading slashes stay "//", one or three and more become "/". */
  function Anchor(s: string): string {
    if |s| >= 2 && s[..2] == "//" && !(|s| >= 3 && s[2] == '/') then "//"
    else if |s| >= 1 && s[0] == '/' then "/"
    else ""
  }

  /** The segments of `s` between slashes, without empty and "." segments. */
  function Segments(s: string): (r: seq<string>)
    ensures forall i | 0 <= i < |r| :: r[i] != "" && r[i] != "." && '/' !in r[i]
  {
    DropDots(Strings.Split(s, '/'))
  }

  function DropDots(xs: seq<string>): (r: seq<string>)
    requires forall i | 0 <= i < |xs| :: '/' !in xs[i]
    ensures forall i | 0 <= i < |r| :: r[i] != "" && r[i] != "." && '/' !in r[i]
  {
    if xs == [] then []
    else if xs[0] == "" || xs[0] == "." then DropDots(xs[1..])
    else [xs[0]] + DropDots(xs[1..])
  }

  /** `PurePosixPath(s)`: the anchor, if any, followed by the non-trivial segments. */
  function Parse(s: string): (p: Path)
    ensures Anchor(s) != "" ==> HasAnchor(p)
  {
    var a := Anchor(s);
    Path((if a == "" then [] else [a]) + Segments(s))
  }

  /** `p / s`: an anchored `s` replaces `p`, anything else is appended part by part. */
  function Div(p: Path, s: string): (r: Path)
    ensures Anchor(s) == "" ==> r.parts == p.parts + Segments(s)
  {
    var q := Parse(s);
    assert Anchor(s) == "" ==> q.parts == Segments(s);
    assert Anchor(s) == "" && q.parts != [] ==> q.parts[0][0] in q.parts[0];
    if HasAnchor(q) then q else Path(p.parts + q.parts)
  }
}
