/**
 * The first-match finders over `nodes()`: by name, and by a possibly
 * shortened dotted import path. A node's `name` and `path` are read as
 * `getattr` reads them (`Model.AttrsOf`).
 */
module Finders {
  import opened Wrappers
  import opened Paths
  import opened Model
  import Strings

  /** The first element of `xs` that satisfies `p`, if any (the scan both finders make). */
  function First<T>(xs: seq<T>, p: T -> bool): (r: Option<T>)
    ensures r.Some? ==> r.value in xs
  {
    if xs == [] then None
    else if p(xs[0]) then Some(xs[0])
    else First(xs[1..], p)
  }

  /** `First` gives the earliest element satisfying `p`, and None exactly when none does. */
  lemma {:induction false} FirstSpec<T>(xs: seq<T>, p: T -> bool)
    ensures First(xs, p).None? <==> forall j | 0 <= j < |xs| :: !p(xs[j])
    ensures First(xs, p).Some? ==> exists i | 0 <= i < |xs| ::
      xs[i] == First(xs, p).value && p(xs[i]) && forall j | 0 <= j < i :: !p(xs[j])
  {
    if xs != [] && !p(xs[0]) {
      FirstSpec(xs[1..], p);
      assert forall j | 1 <= j < |xs| :: xs[j] == xs[1..][j - 1];
      if First(xs, p).Some? {
        var i :| 0 <= i < |xs[1..]| && xs[1..][i] == First(xs, p).value && p(xs[1..][i])
          && forall j | 0 <= j < i :: !p(xs[1..][j]);
        assert xs[i + 1] == xs[1..][i];
      }
    }
  }

  /** `hasattr(node, "name") and getattr(node, "name") == prop`. */
  predicate NameIs(h: Heap, n: Node, prop: string) {
    AttrsOf(h, n).name == Some(prop)
  }

  /** `FindNodeByName(graph)(prop)`; `FindNodeByNameFirst` states what it finds. */
  function FindNodeByName(h: Heap, nodes: seq<Node>, prop: string): (r: Option<Node>)
    ensures r.Some? ==> r.value in nodes
  {
    First(nodes, n => NameIs(h, n, prop))
  }

  /** The name finder gives the first node, in node order, named `prop`, and None when no node is. */
  lemma FindNodeByNameFirst(h: Heap, nodes: seq<Node>, prop: string)
    ensures var r := FindNodeByName(h, nodes, prop);
      && (r.None? <==> forall j | 0 <= j < |nodes| :: !NameIs(h, nodes[j], prop))
      && (r.Some? ==> exists i | 0 <= i < |nodes| ::
            nodes[i] == r.value && NameIs(h, r.value, prop) && forall j | 0 <= j < i :: !NameIs(h, nodes[j], prop))
  {
    FirstSpec(nodes, n => NameIs(h, n, prop));
  }


  /**
   * `FindNodeByImportLike._import_path_of(node)`: the node's path relative to
   * `root`, then its name, joined by "."; None when the node has no path, no
   * (or an empty) name, or lies outside `root`.
   */
  function ImportPathOf(h: Heap, root: Path, n: Node): (r: Option<string>)
    ensures var a := AttrsOf(h, n);
      r.Some? <==> a.path.Some? && a.name.Some? && a.name.value != "" && IsRelativeTo(a.path.value, root)
    ensures r.Some? ==> r.value != "" && Strings.EndsWith(r.value, AttrsOf(h, n).name.value)
  {
    var a := AttrsOf(h, n);
    if a.path.None? || a.name.None? || a.name.value == "" then None
    else match RelativeTo(a.path.value, root)
      case None => None
      case Some(rel) =>
        var ip := Strings.Join(rel + [a.name.value], ".");
        JoinEndsWithLast(rel, a.name.value, ".");
        Some(ip)
  }

  /** A join ends with its last part, and is not empty when that part is not. */
  lemma JoinEndsWithLast(init: seq<string>, last: string, sep: string)
    ensures Strings.EndsWith(Strings.Join(init + [last], sep), last)
    ensures last != "" ==> Strings.Join(init + [last], sep) != ""
  {
    if init == [] {
      assert init + [last] == [last];
    } else {
      Strings.JoinSnoc(init, last, sep);
    }
  }

  /**
   * Where the segments of the relative path and the name hold no ".", the
   * import path splits back into exactly those segments followed by the name.
   */
  lemma ImportPathSegments(h: Heap, root: Path, n: Node)
    requires ImportPathOf(h, root, n).Some?
    requires forall s | s in RelativeTo(AttrsOf(h, n).path.value, root).value :: '.' !in s
    requires '.' !in AttrsOf(h, n).name.value
    ensures Strings.Split(ImportPathOf(h, root, n).value, '.')
      == RelativeTo(AttrsOf(h, n).path.value, root).value + [AttrsOf(h, n).name.value]
  {
    var a := AttrsOf(h, n);
    var parts := RelativeTo(a.path.value, root).value + [a.name.value];
    assert forall i | 0 <= i < |parts| :: '.' !in parts[i];
    Strings.SplitJoin(parts, '.');
  }

  /** The first-pass test: the node's import path ends with the query (or equals it). */
  predicate PathMatches(h: Heap, root: Path, n: Node, query: string) {
    var ip := ImportPathOf(h, root, n);
    ip.Some? && ip.value != "" && (Strings.EndsWith(ip.value, query) || ip.value == query)
  }

  /** The query with surrounding dots stripped, as `import_like.strip(".")`. */
  function StrippedQuery(importLike: string): string {
    Strings.Strip(importLike, '.')
  }

  /** The fallback name: the last dot-segment of the stripped query. */
  function TargetName(importLike: string): string {
    Strings.Last(Strings.Split(StrippedQuery(importLike), '.'))
  }

  /**
   * The stripped query neither starts nor ends with a dot, and the fallback
   * name is a dot-free suffix of it.
   */
  lemma QueryShape(importLike: string)
    ensures var q := StrippedQuery(importLike);
      q == [] || (q[0] != '.' && Strings.Last(q) != '.')
    ensures '.' !in TargetName(importLike)
    ensures Strings.EndsWith(StrippedQuery(importLike), TargetName(importLike))
  {
    LastSegmentSuffix(StrippedQuery(importLike), '.');
  }

  /** The last piece of a split is a suffix of the split string. */
  lemma {:induction false} LastSegmentSuffix(s: string, c: char)
    ensures Strings.EndsWith(s, Strings.Last(Strings.Split(s, c)))
    decreases |s|
  {
    if s != [] {
      LastSegmentSuffix(s[1..], c);
      var rest := Strings.Split(s[1..], c);
      var r := Strings.Split(s, c);
      if s[0] != c && |rest| == 1 {
        Strings.JoinSplit(s[1..], c);
        assert rest == [rest[0]] && Strings.Join(rest, [c]) == rest[0] == s[1..];
        assert Strings.Last(r) == [s[0]] + s[1..] == s;
      } else {
        var x := Strings.Last(rest);
        assert Strings.Last(r) == x;
        assert s[|s| - |x|..] == s[1..][|s| - 1 - |x|..];
      }
    }
  }

  /** `FindNodeByImportLike(graph, root)(import_like)`; `FindNodeByImportLikeFirst` states what it finds. */
  function FindNodeByImportLike(h: Heap, root: Path, nodes: seq<Node>, importLike: string): (r: Option<Node>)
    ensures r.Some? ==> r.value in nodes
  {
    match FirstPathMatch(h, root, nodes, StrippedQuery(importLike))
    case Some(n) => Some(n)
    case None => FindNodeByName(h, nodes, TargetName(importLike))
  }

  /** The first pass of the import-path finder: the first node whose import path matches `q`. */
  function FirstPathMatch(h: Heap, root: Path, nodes: seq<Node>, q: string): Option<Node> {
    First(nodes, n => PathMatches(h, root, n, q))
  }

  /**
   * The import-path finder gives the first node whose import path ends with
   * the stripped query; only when there is none, the first node named like
   * the query's last segment; else None.
   */
  lemma FindNodeByImportLikeFirst(h: Heap, root: Path, nodes: seq<Node>, importLike: string)
    ensures var q := StrippedQuery(importLike);
      var r := FindNodeByImportLike(h, root, nodes, importLike);
      (exists j | 0 <= j < |nodes| :: PathMatches(h, root, nodes[j], q)) ==>
        && r.Some?
        && exists i | 0 <= i < |nodes| ::
             && nodes[i] == r.value
             && PathMatches(h, root, nodes[i], q)
             && forall j | 0 <= j < i :: !PathMatches(h, root, nodes[j], q)
    ensures var q := StrippedQuery(importLike);
      (forall j | 0 <= j < |nodes| :: !PathMatches(h, root, nodes[j], q)) ==>
        FindNodeByImportLike(h, root, nodes, importLike) == FindNodeByName(h, nodes, TargetName(importLike))
  {
    FirstSpec(nodes, n => PathMatches(h, root, n, StrippedQuery(importLike)));
  }
}
