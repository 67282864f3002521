/**
 * The tree exporter: it turns the graph's edges into a label → children
 * table, hangs parentless labels from the root, folds the "." entry into
 * the root, and renders the table as box-drawn lines, depth first, followed
 * by a count of files and directories.
 */
module TreeExport {
  import opened Wrappers
  import opened Paths
  import opened Model
  import opened Graph
  import opened Filters
  import Strings

  /** The `tree` table: a label and the labels listed under it. */
  type Table = map<string, seq<string>>

  /** `tree[k]` read through the defaultdict: an absent key reads as the empty list. */
  function Get(t: Table, k: string): seq<string> {
    if k in t then t[k] else []
  }

  // ---------------------------------------------------------------------
  // Labels

  /**
   * `Path(getattr(n, "path", getattr(n, "name", str(n))))`: the node's path,
   * else its name, else its text, read as a path.
   */
  function NodePath(h: Heap, n: Node): Path {
    var a := AttrsOf(h, n);
    if a.path.Some? then a.path.value
    else if a.name.Some? then Parse(a.name.value)
    else Parse(a.text)
  }

  /** `p.name or str(p)`. */
  function PathLabel(p: Path): string {
    if Name(p) != "" then Name(p) else Str(p)
  }

  /** The label of an edge's source. */
  function SourceLabel(h: Heap, n: Node): string {
    PathLabel(NodePath(h, n))
  }

  /** The label of an edge's target: name and format for a node that has both, else as a source. */
  function TargetLabel(h: Heap, n: Node): string {
    var a := AttrsOf(h, n);
    if a.name.Some? && a.format.Some? then a.name.value + a.format.value else PathLabel(NodePath(h, n))
  }

  /** A plain name, neither empty nor "." and without "/", labels itself. */
  lemma PlainLabel(s: string)
    requires s != "" && s != "." && '/' !in s
    ensures PathLabel(Parse(s)) == s
  {
    Strings.SplitNoSep(s, '/');
    assert DropDots([s]) == [s];
    assert Anchor(s) == "";
  }

  /** The text "." is the empty path, which labels itself ".". */
  lemma DotLabel()
    ensures PathLabel(Parse(".")) == "."
  {
    Strings.SplitNoSep(".", '/');
    assert DropDots(["."]) == [];
  }

  // ---------------------------------------------------------------------
  // Recording the edges

  /** The edge is recorded: its labels differ and its target label is not ".". */
  predicate Kept<L>(h: Heap, e: Edge<Node, L>) {
    SourceLabel(h, e.0) != TargetLabel(h, e.1) && TargetLabel(h, e.1) != "."
  }

  /** The target labels of the recorded edges whose source label is `u`, in edge order. */
  function ChildLabels<L>(h: Heap, es: seq<Edge<Node, L>>, u: string): (r: seq<string>)
    ensures u !in r && "." !in r
  {
    if es == [] then [] else EdgeChild(h, es[0], u) + ChildLabels(h, es[1..], u)
  }

  /** What one edge adds to the list of `u`: its target label when it is kept and leaves `u`. */
  function EdgeChild<L>(h: Heap, e: Edge<Node, L>, u: string): (r: seq<string>)
    ensures u !in r && "." !in r
  {
    if Kept(h, e) && SourceLabel(h, e.0) == u then [TargetLabel(h, e.1)] else []
  }

  lemma {:induction false} ChildLabelsSnoc<L>(h: Heap, es: seq<Edge<Node, L>>, e: Edge<Node, L>, u: string)
    ensures ChildLabels(h, es + [e], u) == ChildLabels(h, es, u) + EdgeChild(h, e, u)
  {
    if es == [] {
      assert [] + [e] == [e];
    } else {
      assert (es + [e])[0] == es[0] && (es + [e])[1..] == es[1..] + [e];
      ChildLabelsSnoc(h, es[1..], e, u);
    }
  }

  /** `t` is the table the edges `es` record: a key per source label with recorded edges, listing their targets in order. */
  ghost predicate Recorded<L>(t: Table, h: Heap, es: seq<Edge<Node, L>>) {
    forall u :: Get(t, u) == ChildLabels(h, es, u) && (u in t <==> ChildLabels(h, es, u) != [])
  }

  /** No recorded label lists itself or ".". */
  lemma RecordedShape<L>(t: Table, h: Heap, es: seq<Edge<Node, L>>)
    requires Recorded(t, h, es)
    ensures forall u | u in t :: u !in t[u] && "." !in t[u] && t[u] != []
  {
    forall u | u in t ensures u !in t[u] && "." !in t[u] && t[u] != [] {
      assert Get(t, u) == ChildLabels(h, es, u);
    }
  }

  /** The recording loop over the graph's edges: `tree[u_label].append(v_label)` for each kept edge. */
  method RecordEdges<L>(h: Heap, es: seq<Edge<Node, L>>) returns (t: Table)
    ensures Recorded(t, h, es)
  {
    t := map[];
    for i := 0 to |es|
      invariant Recorded(t, h, es[..i])
    {
      var ul, vl := SourceLabel(h, es[i].0), TargetLabel(h, es[i].1);
      RecordStep(t, h, es, i);
      if ul != vl && vl != "." {
        t := t[ul := Get(t, ul) + [vl]];
      }
    }
    assert es[..|es|] == es;
  }

  /** One more edge appends its target label to its source label's list when it is kept. */
  lemma RecordStep<L>(t: Table, h: Heap, es: seq<Edge<Node, L>>, i: nat)
    requires i < |es| && Recorded(t, h, es[..i])
    ensures var e := es[i];
      Recorded(if Kept(h, e) then t[SourceLabel(h, e.0) := Get(t, SourceLabel(h, e.0)) + [TargetLabel(h, e.1)]] else t, h, es[..i + 1])
  {
    var e := es[i];
    assert es[..i + 1] == es[..i] + [e];
    forall u ensures ChildLabels(h, es[..i + 1], u) == ChildLabels(h, es[..i], u) + (if Kept(h, e) && SourceLabel(h, e.0) == u then [TargetLabel(h, e.1)] else []) {
      ChildLabelsSnoc(h, es[..i], e, u);
    }
  }

  /**
   * The edges `a → b → c` between text nodes with plain, distinct names
   * (the unit test's `root → folder → file.txt`) record `a: [b], b: [c]`.
   */
  lemma RecordedExample<L>(h: Heap, l: Option<L>, a: string, b: string, c: string)
    requires Plain(a) && Plain(b) && Plain(c) && a != b && b != c
    ensures var es := [(TextNode(a), TextNode(b), l), (TextNode(b), TextNode(c), l)];
      Recorded(map[a := [b], b := [c]], h, es)
  {
    var es := [(TextNode(a), TextNode(b), l), (TextNode(b), TextNode(c), l)];
    var t := map[a := [b], b := [c]];
    TextLabel(h, a);
    TextLabel(h, b);
    TextLabel(h, c);
    forall u ensures Get(t, u) == ChildLabels(h, es, u) && (u in t <==> ChildLabels(h, es, u) != []) {
      ExampleChildren(h, es, a, b, c, u);
    }
  }

  /** A label that is neither empty nor "." and has no "/". */
  predicate Plain(s: string) {
    s != "" && s != "." && '/' !in s
  }

  /** A text node with a plain name is labelled by its text, as source and as target. */
  lemma TextLabel(h: Heap, s: string)
    requires Plain(s)
    ensures SourceLabel(h, TextNode(s)) == s && TargetLabel(h, TextNode(s)) == s
  {
    assert NodePath(h, TextNode(s)) == Parse(s);
    PlainLabel(s);
  }

  lemma ExampleChildren<L>(h: Heap, es: seq<Edge<Node, L>>, a: string, b: string, c: string, u: string)
    requires |es| == 2 && a != b && b != c
    requires SourceLabel(h, es[0].0) == a && TargetLabel(h, es[0].1) == b
    requires SourceLabel(h, es[1].0) == b && TargetLabel(h, es[1].1) == c
    requires b != "." && c != "."
    ensures ChildLabels(h, es, u) == (if u == a then [b] else []) + (if u == b then [c] else [])
  {
    assert es[1..][1..] == [];
    assert ChildLabels(h, es[1..][1..], u) == [];
    assert Kept(h, es[0]) && Kept(h, es[1]);
    assert ChildLabels(h, es[1..], u) == (if u == b then [c] else []) + ChildLabels(h, es[1..][1..], u);
  }

  // ---------------------------------------------------------------------
  // Parentless labels

  /** Some list of the table holds `n`. */
  predicate HasParent(t: Table, n: string) {
    exists k | k in t :: n in t[k]
  }

  /** `all_nodes`: the keys and every listed label. */
  function AllLabels(t: Table): set<string> {
    t.Keys + (set k, x | k in t && x in t[k] :: x)
  }

  /** The labels that no list holds, other than the root. */
  function Orphans(t: Table, root: string): set<string> {
    set n | n in AllLabels(t) && !HasParent(t, n) && n != root
  }

  /** The table after the root's list is extended by `order`. */
  function WithOrphans(t: Table, root: string, order: seq<string>): Table {
    if order == [] then t else t[root := Get(t, root) + order]
  }

  /** Extending the root's list by labels other than `n` does not change whether `n` has a parent. */
  lemma HasParentWithOrphans(t: Table, root: string, order: seq<string>, n: string)
    requires n !in order
    ensures HasParent(WithOrphans(t, root, order), n) == HasParent(t, n)
  {
    var t' := WithOrphans(t, root, order);
    if HasParent(t', n) {
      var k :| k in t' && n in t'[k];
      assert k in t && n in t[k];
    }
    if HasParent(t, n) {
      var k :| k in t && n in t[k];
      assert k in t' && n in t'[k];
    }
  }

  /** After the orphans are attached, every label but the root has a parent. */
  lemma OrphansAttached(t: Table, root: string, order: seq<string>)
    requires forall n :: n in order <==> n in Orphans(t, root)
    ensures forall n | n in AllLabels(t) && n != root :: HasParent(WithOrphans(t, root, order), n)
  {
    var t' := WithOrphans(t, root, order);
    forall n | n in AllLabels(t) && n != root ensures HasParent(t', n) {
      if n in order {
        assert n in t'[root];
      } else {
        HasParentWithOrphans(t, root, order, n);
      }
    }
  }

  /**
   * The orphan loop: every label of `all_nodes` (in the set's iteration
   * order, which Python leaves unspecified) that no list holds and that is
   * not the root is appended to the root's list.
   */
  method AttachOrphans(t0: Table, root: string) returns (t: Table, ghost order: seq<string>)
    ensures Distinct(order) && forall n :: n in order <==> n in Orphans(t0, root)
    ensures t == WithOrphans(t0, root, order)
  {
    var allNodes := AllLabels(t0);
    var rest := allNodes;
    t, order := t0, [];
    while rest != {}
      invariant rest <= allNodes
      invariant Distinct(order)
      invariant forall n :: n in order <==> n in Orphans(t0, root) && n !in rest
      invariant t == WithOrphans(t0, root, order)
      decreases |rest|
    {
      var n :| n in rest;
      assert n !in order;
      HasParentWithOrphans(t0, root, order, n);
      if !HasParent(t, n) && n != root {
        assert Get(t, root) == Get(t0, root) + order;
        t := t[root := Get(t, root) + [n]];
        assert Get(t0, root) + order + [n] == Get(t0, root) + (order + [n]);
        order := order + [n];
      }
      rest := rest - {n};
    }
  }

  // ---------------------------------------------------------------------
  // Folding "." into the root

  /** `base` extended by each label of `xs` not already in it, in order. */
  function AppendNew(base: seq<string>, xs: seq<string>): seq<string> {
    if xs == [] then base
    else
      var a := AppendNew(base, xs[..|xs| - 1]);
      if xs[|xs| - 1] in a then a else a + [xs[|xs| - 1]]
  }

  /** Merging keeps `base` as it is in front, adds every label of `xs`, and repeats nothing new. */
  lemma {:induction false} AppendNewSpec(base: seq<string>, xs: seq<string>)
    ensures |AppendNew(base, xs)| >= |base| && AppendNew(base, xs)[..|base|] == base
    ensures forall x :: x in AppendNew(base, xs) <==> x in base || x in xs
    ensures Distinct(base) ==> Distinct(AppendNew(base, xs))
    ensures forall i | |base| <= i < |AppendNew(base, xs)| :: AppendNew(base, xs)[i] !in base
  {
    if xs != [] {
      var init := xs[..|xs| - 1];
      AppendNewSpec(base, init);
      assert xs == init + [xs[|xs| - 1]];
      var a := AppendNew(base, init);
      assert (a + [xs[|xs| - 1]])[..|base|] == a[..|base|];
    }
  }

  /** The table after the "." entry is popped and its labels merged into the root's list. */
  function DotMerged(t: Table, root: string): Table {
    if "." !in t then t
    else
      var rest := t - {"."};
      if t["."] == [] then rest else rest[root := AppendNew(Get(rest, root), t["."])]
  }

  /** After the merge, "." is no key unless it is the root, and its labels sit in the root's list. */
  lemma DotMergedSpec(t: Table, root: string)
    requires "." in t
    ensures "." in DotMerged(t, root) ==> root == "."
    ensures forall x | x in t["."] :: x in Get(DotMerged(t, root), root)
    ensures forall k | k in t && k != "." && k != root :: k in DotMerged(t, root) && DotMerged(t, root)[k] == t[k]
  {
    AppendNewSpec(Get(t - {"."}, root), t["."]);
  }

  /** The merge loop, run when "." is a key: each label of the popped list, unless the root already lists it. */
  method MergeDot(t0: Table, root: string) returns (t: Table)
    ensures t == DotMerged(t0, root)
  {
    t := t0;
    if "." in t {
      var dots := t["."];
      t := t - {"."};
      ghost var rest := t;
      for i := 0 to |dots|
        invariant t == if i == 0 then rest else rest[root := AppendNew(Get(rest, root), dots[..i])]
      {
        assert dots[..i + 1][..i] == dots[..i];
        var cur := Get(t, root);
        if dots[i] !in cur {
          cur := cur + [dots[i]];
        }
        t := t[root := cur];
      }
      assert dots[..|dots|] == dots;
    }
  }

  // ---------------------------------------------------------------------
  // Removing "." from every list

  /** Python `xs.remove(x)`: drops the first occurrence. */
  function RemoveFirst(xs: seq<string>, x: string): (r: seq<string>)
    requires x in xs
    ensures |r| == |xs| - 1
    ensures Without(r, x) == Without(xs, x)
  {
    if xs[0] == x then xs[1..]
    else [xs[0]] + RemoveFirst(xs[1..], x)
  }

  /** Every list without its "." entries, order kept. */
  function StripAll(t: Table): (r: Table)
    ensures r.Keys == t.Keys
    ensures forall k | k in r :: "." !in r[k]
  {
    map k | k in t :: Without(t[k], ".")
  }

  /** `while "." in children: children.remove(".")`. */
  method StripList(xs0: seq<string>) returns (xs: seq<string>)
    ensures xs == Without(xs0, ".")
  {
    xs := xs0;
    while "." in xs
      invariant Without(xs, ".") == Without(xs0, ".")
      decreases |xs|
    {
      xs := RemoveFirst(xs, ".");
    }
    WithoutAbsent(xs, ".");
  }

  lemma {:induction false} WithoutAbsent(xs: seq<string>, x: string)
    requires x !in xs
    ensures Without(xs, x) == xs
  {
    if xs != [] {
      WithoutAbsent(xs[1..], x);
      assert xs == [xs[0]] + xs[1..];
    }
  }

  /** The strip loop over every list of the table. */
  method StripDots(t0: Table) returns (t: Table)
    ensures t == StripAll(t0)
  {
    t := t0;
    var todo := t0.Keys;
    while todo != {}
      invariant todo <= t0.Keys && t.Keys == t0.Keys
      invariant forall k | k in t :: t[k] == if k in todo then t0[k] else Without(t0[k], ".")
      decreases |todo|
    {
      var k :| k in todo;
      var stripped := StripList(t[k]);
      t := t[k := stripped];
      todo := todo - {k};
    }
  }

  /** `start_node`: "." when the root's only child is ".", else the root. */
  function StartNode(t: Table, root: string): string {
    if |Get(t, root)| == 1 && t[root][0] == "." then "." else root
  }

  // ---------------------------------------------------------------------
  // Child order

  /** The sort key `(x not in tree, x.lower())`: directories first, then by lower-cased label. */
  predicate KeyLe(t: Table, a: string, b: string) {
    (a in t && b !in t) || ((a in t) == (b in t) && Strings.LessEq(Strings.Lower(a), Strings.Lower(b)))
  }

  lemma KeyLeTotal(t: Table, a: string, b: string)
    ensures KeyLe(t, a, b) || KeyLe(t, b, a)
  {
    Strings.LessEqTotal(Strings.Lower(a), Strings.Lower(b));
  }

  lemma KeyLeTrans(t: Table, a: string, b: string, c: string)
    requires KeyLe(t, a, b) && KeyLe(t, b, c)
    ensures KeyLe(t, a, c)
  {
    if (a in t) == (b in t) && (b in t) == (c in t) {
      Strings.LessEqTrans(Strings.Lower(a), Strings.Lower(b), Strings.Lower(c));
    }
  }

  predicate SortedByKey(t: Table, s: seq<string>) {
    forall i, j | 0 <= i < j < |s| :: KeyLe(t, s[i], s[j])
  }

  /** Inserts `x` before the first label whose key is not below its own, so equal keys keep their order. */
  function Insert(t: Table, x: string, s: seq<string>): seq<string> {
    if s == [] || KeyLe(t, x, s[0]) then [x] + s else [s[0]] + Insert(t, x, s[1..])
  }

  /** Python's stable `sorted(children, key=...)`. */
  function SortChildren(t: Table, xs: seq<string>): seq<string> {
    if xs == [] then [] else Insert(t, xs[0], SortChildren(t, xs[1..]))
  }

  lemma {:induction false} InsertSpec(t: Table, x: string, s: seq<string>)
    requires SortedByKey(t, s)
    ensures SortedByKey(t, Insert(t, x, s))
    ensures multiset(Insert(t, x, s)) == multiset(s) + multiset{x}
  {
    if s == [] || KeyLe(t, x, s[0]) {
      var r := [x] + s;
      forall i, j | 0 <= i < j < |r| ensures KeyLe(t, r[i], r[j]) {
        if i == 0 && j > 1 {
          KeyLeTrans(t, x, s[0], s[j - 1]);
        }
      }
    } else {
      KeyLeTotal(t, x, s[0]);
      InsertSpec(t, x, s[1..]);
      var rest := Insert(t, x, s[1..]);
      assert s == [s[0]] + s[1..];
      var r := [s[0]] + rest;
      forall i, j | 0 <= i < j < |r| ensures KeyLe(t, r[i], r[j]) {
        if i == 0 {
          assert r[j] in multiset(rest);
          if r[j] != x {
            assert r[j] in s[1..];
          }
        }
      }
    }
  }

  /** The children are rendered ordered by the key and are exactly the listed labels, repeats included. */
  lemma {:induction false} SortChildrenSpec(t: Table, xs: seq<string>)
    ensures SortedByKey(t, SortChildren(t, xs))
    ensures multiset(SortChildren(t, xs)) == multiset(xs)
  {
    if xs != [] {
      var rest := SortChildren(t, xs[1..]);
      SortChildrenSpec(t, xs[1..]);
      InsertSpec(t, xs[0], rest);
      assert SortChildren(t, xs) == Insert(t, xs[0], rest);
      assert xs == [xs[0]] + xs[1..];
      assert multiset(xs) == multiset(xs[1..]) + multiset{xs[0]};
    }
  }

  // ---------------------------------------------------------------------
  // Lines

  /** The text each ancestor level puts in front of a line. */
  function Indent(last: bool): string {
    if last then "    " else "│   "
  }

  /** `"".join(...)` over the ancestor levels. */
  function LinePrefix(symbols: seq<bool>): string {
    if symbols == [] then "" else LinePrefix(symbols[..|symbols| - 1]) + Indent(symbols[|symbols| - 1])
  }

  /** Level `i` of the ancestors occupies columns `4i` to `4i + 3`. */
  lemma {:induction false} LinePrefixColumns(symbols: seq<bool>)
    ensures |LinePrefix(symbols)| == 4 * |symbols|
    ensures forall i | 0 <= i < |symbols| :: LinePrefix(symbols)[4 * i..4 * i + 4] == Indent(symbols[i])
  {
    if symbols != [] {
      var n := |symbols| - 1;
      var init := symbols[..n];
      LinePrefixColumns(init);
      assert symbols == init + [symbols[n]];
      ColumnsStep(LinePrefix(init), init, symbols[n]);
    }
  }

  lemma ColumnsStep(p: string, init: seq<bool>, b: bool)
    requires |p| == 4 * |init|
    requires forall i | 0 <= i < |init| :: p[4 * i..4 * i + 4] == Indent(init[i])
    ensures forall i | 0 <= i < |init| + 1 :: (p + Indent(b))[4 * i..4 * i + 4] == Indent((init + [b])[i])
  {
    var q := Indent(b);
    assert |q| == 4;
    forall i | 0 <= i < |init| + 1 ensures (p + q)[4 * i..4 * i + 4] == Indent((init + [b])[i]) {
      if i < |init| {
        SliceLeft(p, q, 4 * i, 4 * i + 4);
      } else {
        SliceRight(p, q);
      }
    }
  }

  lemma SliceRight(a: string, b: string)
    ensures (a + b)[|a|..|a| + |b|] == b
  {
  }

  lemma SliceLeft(a: string, b: string, lo: nat, hi: nat)
    requires lo <= hi <= |a|
    ensures (a + b)[lo..hi] == a[lo..hi]
  {
  }

  /** The branch drawn before a label: the last sibling closes the column. */
  function Branch(isLast: bool): string {
    if isLast then "└── " else "├── "
  }

  /** One rendered child: its ancestors' levels, whether it is the last sibling, and its label. */
  datatype Entry = Entry(ancestors: seq<bool>, isLast: bool, name: string)

  function Line(e: Entry): string {
    LinePrefix(e.ancestors) + Branch(e.isLast) + e.name
  }

  function Lines(es: seq<Entry>): (r: seq<string>)
    ensures |r| == |es| && forall i | 0 <= i < |es| :: r[i] == Line(es[i])
  {
    seq(|es|, i requires 0 <= i < |es| => Line(es[i]))
  }

  /** The entries of a child list, in order, the last flagged. */
  function ChildEntries(symbols: seq<bool>, cs: seq<string>): (r: seq<Entry>)
    ensures |r| == |cs|
  {
    seq(|cs|, i requires 0 <= i < |cs| => Entry(symbols, i == |cs| - 1, cs[i]))
  }

  /** The entries at exactly `d` ancestor levels. */
  function AtDepth(es: seq<Entry>, d: nat): seq<Entry> {
    Keep(es, DepthIs(d))
  }

  function DepthIs(d: nat): Entry -> bool {
    (e: Entry) => |e.ancestors| == d
  }

  /** The entry lies below ancestors `symbols`. */
  predicate Below(e: Entry, symbols: seq<bool>) {
    |symbols| <= |e.ancestors| && e.ancestors[..|symbols|] == symbols
  }

  /** How many entries are directories (keys of the table). */
  function CountDirs(t: Table, es: seq<Entry>): (r: nat)
    ensures r <= |es|
  {
    if es == [] then 0 else CountDirs(t, es[..|es| - 1]) + (if es[|es| - 1].name in t then 1 else 0)
  }

  /** `f"\n{files} files, {dirs} directories"`. */
  function Summary(files: nat, dirs: nat): string {
    "\n" + Strings.NatToString(files) + " files, " + Strings.NatToString(dirs) + " directories"
  }

  /** `lines` are the rendered `entries`, one for one. */
  predicate Renders(lines: seq<string>, es: seq<Entry>) {
    |lines| == |es| && forall i | 0 <= i < |es| :: lines[i] == Line(es[i])
  }

  lemma {:induction false} CountDirsAppend(t: Table, a: seq<Entry>, b: seq<Entry>)
    ensures CountDirs(t, a + b) == CountDirs(t, a) + CountDirs(t, b)
    decreases |b|
  {
    if b != [] {
      var n := |b| - 1;
      assert (a + b)[..|a + b| - 1] == a + b[..n];
      CountDirsAppend(t, a, b[..n]);
    } else {
      assert a + b == a;
    }
  }

  /** A walk's visited set grows by a label of the universe it did not hold, so less is left to visit. */
  lemma Shrinks(u: set<string>, v0: set<string>, v: set<string>, x: string)
    requires x in u && x !in v0 && v0 + {x} <= v
    ensures |u - v| < |u - v0|
  {
    var a, b := u - v, u - v0;
    assert a <= b - {x};
    assert b == (b - {x}) + {x};
    SubsetCard(a, b - {x});
  }

  lemma SubsetCard(a: set<string>, b: set<string>)
    requires a <= b
    ensures |a| <= |b|
  {
    assert b == a + (b - a);
  }

  /** What a walk gives: the entries it emits, in order, and the labels expanded once it is done. */
  datatype Walked = Walked(entries: seq<Entry>, visited: set<string>)

  /**
   * `_walk(prefix, symbols)` over the table `t` with the labels `v` already
   * expanded: nothing for an expanded label; otherwise the label is marked
   * expanded and its sorted children follow one another, each giving its own
   * entry and then, when it is a key, its own walk one level deeper.
   */
  ghost function WalkSpec(t: Table, u: set<string>, v: set<string>, prefix: string, symbols: seq<bool>): (r: Walked)
    requires t.Keys <= u && v <= u && prefix in u
    ensures v <= r.visited <= u
    decreases |u - v|, 0, 0
  {
    if prefix in v then Walked([], v)
    else
      Shrinks(u, v, v + {prefix}, prefix);
      ChildrenSpec(t, u, v + {prefix}, SortChildren(t, Get(t, prefix)), 0, symbols)
  }

  /** One child of a walk: its entry, then its subtree when it is a key. */
  ghost function EmitSpec(t: Table, u: set<string>, v: set<string>, child: string, isLast: bool, symbols: seq<bool>): (r: Walked)
    requires t.Keys <= u && v <= u
    ensures v <= r.visited <= u
    decreases |u - v|, 1, 0
  {
    var e := Entry(symbols, isLast, child);
    if child in t then
      var w := WalkSpec(t, u, v, child, symbols + [isLast]);
      Walked([e] + w.entries, w.visited)
    else Walked([e], v)
  }

  /** The children `cs[i..]` of a walk, one after the other, the last one flagged. */
  ghost function ChildrenSpec(t: Table, u: set<string>, v: set<string>, cs: seq<string>, i: nat, symbols: seq<bool>): (r: Walked)
    requires t.Keys <= u && v <= u && i <= |cs|
    ensures v <= r.visited <= u
    decreases |u - v|, 2, |cs| - i
  {
    if i == |cs| then Walked([], v)
    else
      var w := EmitSpec(t, u, v, cs[i], i == |cs| - 1, symbols);
      SubsetCard(u - w.visited, u - v);
      var rest := ChildrenSpec(t, u, w.visited, cs, i + 1, symbols);
      Walked(w.entries + rest.entries, rest.visited)
  }

  /** The entries of the whole rendering: the walk from `root` with nothing expanded yet. */
  ghost function Listing(t: Table, root: string): seq<Entry> {
    WalkSpec(t, t.Keys + {root}, {}, root, []).entries
  }

  /** A key listed under the root is followed by its own child, one level deeper: never the other way round. */
  lemma NestedListing()
    ensures Listing(map["r" := ["a"], "a" := ["x"]], "r") == [Entry([], true, "a"), Entry([true], true, "x")]
  {
    var t: Table := map["r" := ["a"], "a" := ["x"]];
    var u := t.Keys + {"r"};
    assert Get(t, "r") == ["a"] && Get(t, "a") == ["x"] && "x" !in t && "a" in t;
    assert SortChildren(t, ["a"]) == ["a"] && SortChildren(t, ["x"]) == ["x"];
    var ex, ea := Entry([true], true, "x"), Entry([], true, "a");
    var vr, vx := {"r"}, {"r", "a"};
    assert vr + {"a"} == vx && {} + {"r"} == vr;
    assert ChildrenSpec(t, u, vx, ["x"], 1, [true]) == Walked([], vx);
    assert EmitSpec(t, u, vx, "x", true, [true]) == Walked([ex], vx);
    assert ChildrenSpec(t, u, vx, ["x"], 0, [true]) == Walked([ex], vx);
    assert WalkSpec(t, u, vr, "a", [true]) == Walked([ex], vx);
    assert [] + [true] == [true] && [ea] + [ex] == [ea, ex];
    assert EmitSpec(t, u, vr, "a", true, []) == Walked([ea, ex], vx);
    assert ChildrenSpec(t, u, vx, ["a"], 1, []) == Walked([], vx);
    assert ChildrenSpec(t, u, vr, ["a"], 0, []) == Walked([ea, ex], vx);
  }

  /** The state of one rendering: the finished table, the labels expanded so far and the two counters. */
  class Walker {
    const tree: Table
    /** Every label a walk can expand: the table's keys and the start. */
    const universe: set<string>
    var visited: set<string>
    var files: nat
    var dirs: nat

    constructor (tree: Table, start: string)
      ensures this.tree == tree && universe == tree.Keys + {start}
      ensures visited == {} && files == 0 && dirs == 0
    {
      this.tree := tree;
      universe := tree.Keys + {start};
      visited, files, dirs := {}, 0, 0;
    }

    /**
     * `_walk(prefix, prefix_symbols)`: a label already expanded gives no
     * lines; otherwise its children, sorted, each give a line and, when they
     * are keys themselves, the lines of their own walk one level deeper.
     * Every line counts as a directory when its label is a key, else as a file.
     */
    method Walk(prefix: string, symbols: seq<bool>) returns (lines: seq<string>, ghost entries: seq<Entry>)
      requires tree.Keys <= universe && prefix in universe && visited <= universe
      modifies this
      decreases |universe - visited|, 0
      ensures Walked(entries, visited) == WalkSpec(tree, universe, old(visited), prefix, symbols)
      ensures old(visited) <= visited
      ensures Progress(tree, symbols, lines, entries, old(dirs), old(files), dirs, files)
      ensures prefix in old(visited) ==> entries == [] && visited == old(visited) && files == old(files) && dirs == old(dirs)
      ensures prefix !in old(visited) ==> prefix in visited && AtDepth(entries, |symbols|) == ChildEntries(symbols, SortChildren(tree, Get(tree, prefix)))
    {
      if prefix in visited {
        return [], [];
      }
      Shrinks(universe, visited, visited + {prefix}, prefix);
      visited := visited + {prefix};
      var children := SortChildren(tree, Get(tree, prefix));
      SortChildrenSpec(tree, Get(tree, prefix));
      forall c | c in children ensures HasParent(tree, c) {
        assert c in multiset(Get(tree, prefix));
      }
      lines, entries := WalkChildren(children, symbols);
    }

    /** The loop of `_walk` over the sorted children `cs` of an expanded label. */
    method WalkChildren(cs: seq<string>, symbols: seq<bool>) returns (lines: seq<string>, ghost entries: seq<Entry>)
      requires tree.Keys <= universe && visited <= universe
      requires forall c | c in cs :: HasParent(tree, c)
      modifies this
      decreases |universe - visited|, 2
      ensures Walked(entries, visited) == ChildrenSpec(tree, universe, old(visited), cs, 0, symbols)
      ensures Progress(tree, symbols, lines, entries, old(dirs), old(files), dirs, files)
      ensures AtDepth(entries, |symbols|) == ChildEntries(symbols, cs)
    {
      lines, entries := [], [];
      ghost var expected := ChildEntries(symbols, cs);
      ghost var whole := ChildrenSpec(tree, universe, visited, cs, 0, symbols);
      for i := 0 to |cs|
        invariant old(visited) <= visited <= universe
        invariant Progress(tree, symbols, lines, entries, old(dirs), old(files), dirs, files)
        invariant AtDepth(entries, |symbols|) == expected[..i]
        invariant Rest(whole, entries, ChildrenSpec(tree, universe, visited, cs, i, symbols))
      {
        SubsetCard(universe - visited, universe - old(visited));
        ghost var d1, f1, v1 := dirs, files, visited;
        var more, moreEntries := Emit(cs[i], i == |cs| - 1, symbols);
        RestStep(whole, entries, moreEntries, ChildrenSpec(tree, universe, visited, cs, i + 1, symbols));
        ProgressAppend(tree, symbols, lines, entries, more, moreEntries, old(dirs), old(files), d1, f1, dirs, files);
        KeepConcat(entries, moreEntries, DepthIs(|symbols|));
        NextEntry(symbols, cs, i);
        lines := lines + more;
        entries := entries + moreEntries;
      }
      assert expected[..|cs|] == expected;
    }

    /** One child of a walk: its line, counted, then the walk of the child when it is a key. */
    method Emit(child: string, isLast: bool, symbols: seq<bool>) returns (lines: seq<string>, ghost entries: seq<Entry>)
      requires tree.Keys <= universe && HasParent(tree, child) && visited <= universe
      modifies this
      decreases |universe - visited|, 1
      ensures Walked(entries, visited) == EmitSpec(tree, universe, old(visited), child, isLast, symbols)
      ensures old(visited) <= visited
      ensures Progress(tree, symbols, lines, entries, old(dirs), old(files), dirs, files)
      ensures AtDepth(entries, |symbols|) == [Entry(symbols, isLast, child)]
    {
      var e := Entry(symbols, isLast, child);
      lines := [LinePrefix(symbols) + Branch(isLast) + child];
      entries := [e];
      assert [e][..0] == [];
      ghost var v0 := visited;
      if child in tree {
        dirs := dirs + 1;
        ghost var d1, f1 := dirs, files;
        var sub, subEntries := Walk(child, symbols + [isLast]);
        assert Walked(subEntries, visited) == WalkSpec(tree, universe, v0, child, symbols + [isLast]);
        BelowParent(tree, symbols, isLast, sub, subEntries, d1, f1, dirs, files);
        ProgressAppend(tree, symbols, lines, entries, sub, subEntries, old(dirs), old(files), d1, f1, dirs, files);
        KeepConcat(entries, subEntries, DepthIs(|symbols|));
        KeepNone(subEntries, DepthIs(|symbols|));
        lines := lines + sub;
        entries := entries + subEntries;
        assert Walked(entries, visited) == EmitSpec(tree, universe, v0, child, isLast, symbols);
      } else {
        files := files + 1;
      }
    }
  }

  /** `whole` is what the children emitted so far, `done`, followed by what the rest emit. */
  ghost predicate Rest(whole: Walked, done: seq<Entry>, rest: Walked) {
    whole == Walked(done + rest.entries, rest.visited)
  }

  /** One more child moves its entries from the rest to what was emitted. */
  lemma RestStep(whole: Walked, done: seq<Entry>, more: seq<Entry>, rest: Walked)
    requires Rest(whole, done, Walked(more + rest.entries, rest.visited))
    ensures Rest(whole, done + more, rest)
  {
    assert done + (more + rest.entries) == done + more + rest.entries;
  }

  /** The first `i + 1` entries of a child list extend the first `i` by the line of child `i`. */
  lemma NextEntry(symbols: seq<bool>, cs: seq<string>, i: nat)
    requires i < |cs|
    ensures ChildEntries(symbols, cs)[..i + 1] == ChildEntries(symbols, cs)[..i] + [Entry(symbols, i == |cs| - 1, cs[i])]
  {
  }

  /**
   * `lines` render `entries`, all below `symbols` and listed in the table,
   * and the counters moved from `d0`, `f0` to `d`, `f`: one directory per
   * entry whose label is a key, one file per other entry.
   */
  ghost predicate Progress(t: Table, symbols: seq<bool>, lines: seq<string>, es: seq<Entry>, d0: nat, f0: nat, d: nat, f: nat) {
    && Renders(lines, es)
    && (forall e | e in es :: Below(e, symbols) && HasParent(t, e.name))
    && d == d0 + CountDirs(t, es)
    && f + d == f0 + d0 + |es|
  }

  lemma ProgressAppend(t: Table, symbols: seq<bool>, l1: seq<string>, e1: seq<Entry>, l2: seq<string>, e2: seq<Entry>,
                       d0: nat, f0: nat, d1: nat, f1: nat, d2: nat, f2: nat)
    requires Progress(t, symbols, l1, e1, d0, f0, d1, f1) && Progress(t, symbols, l2, e2, d1, f1, d2, f2)
    ensures Progress(t, symbols, l1 + l2, e1 + e2, d0, f0, d2, f2)
  {
    CountDirsAppend(t, e1, e2);
  }

  /** The walk of a child one level down, counted from a directory line, is progress below the parent's levels. */
  lemma BelowParent(t: Table, symbols: seq<bool>, isLast: bool, ls: seq<string>, es: seq<Entry>, d0: nat, f0: nat, d: nat, f: nat)
    requires Progress(t, symbols + [isLast], ls, es, d0, f0, d, f)
    ensures Progress(t, symbols, ls, es, d0, f0, d, f)
    ensures forall e | e in es :: !DepthIs(|symbols|)(e)
  {
    forall e | e in es ensures Below(e, symbols) {
      assert e.ancestors[..|symbols|] == e.ancestors[..|symbols| + 1][..|symbols|];
    }
  }

  /** The exporter: the label the rendering starts from. */
  class TreeDirectoryExporter {
    const root: string

    constructor (root: string)
      ensures this.root == root
    {
      this.root := root;
    }

    /**
     * `exporter(graph)`: the table the graph's edges record, with the
     * orphans hung from the root (in some order of the label set), "."
     * merged into the root and stripped from every list, is rendered from
     * the root; the output is the lines joined by newlines and the summary,
     * which counts every line whose label is a key as a directory and every
     * other line as a file.
     */
    method Export<L(==,!new)>(h: Heap, g: GraphX<Node, L>) returns (out: string, ghost recorded: Table, ghost order: seq<string>, ghost tree: Table, ghost entries: seq<Entry>)
      requires g.Valid()
      ensures Recorded(recorded, h, g.Edges())
      ensures Distinct(order) && forall n :: n in order <==> n in Orphans(recorded, root)
      ensures tree == StripAll(DotMerged(WithOrphans(recorded, root, order), root))
      ensures out == Strings.Join(Lines(entries), "\n") + Summary(|entries| - CountDirs(tree, entries), CountDirs(tree, entries))
      ensures entries == Listing(tree, root)
      ensures AtDepth(entries, 0) == ChildEntries([], SortChildren(tree, Get(tree, root)))
      ensures forall e | e in entries :: HasParent(tree, e.name) && e.name != "."
    {
      var t := RecordEdges(h, g.Edges());
      recorded := t;
      t, order := BuildTable(t, root);
      tree := t;
      out, entries := Render(t, root);
    }
  }

  /** The orphan, merge and strip passes over the recorded table. */
  method BuildTable(t0: Table, root: string) returns (t: Table, ghost order: seq<string>)
    ensures Distinct(order) && forall n :: n in order <==> n in Orphans(t0, root)
    ensures t == StripAll(DotMerged(WithOrphans(t0, root, order), root))
  {
    t, order := AttachOrphans(t0, root);
    t := MergeDot(t, root);
    t := StripDots(t);
  }

  /** The rendering of a stripped table: `_walk` from the start node and the summary of its counters. */
  method Render(tree: Table, root: string) returns (out: string, ghost entries: seq<Entry>)
    requires forall k | k in tree :: "." !in tree[k]
    ensures out == Strings.Join(Lines(entries), "\n") + Summary(|entries| - CountDirs(tree, entries), CountDirs(tree, entries))
    ensures entries == Listing(tree, root)
    ensures AtDepth(entries, 0) == ChildEntries([], SortChildren(tree, Get(tree, root)))
    ensures forall e | e in entries :: HasParent(tree, e.name) && e.name != "."
  {
    var start := StartNode(tree, root);
    NoDotStart(tree, root);
    var w := new Walker(tree, start);
    var lines;
    lines, entries := w.Walk(start, []);
    out := Strings.Join(lines, "\n") + Summary(w.files, w.dirs);
    RenderedLines(tree, lines, entries, w.dirs, w.files);
  }

  /** With no "." listed anywhere, as after the strip, the start-at-"." case cannot apply: rendering starts at the root. */
  lemma NoDotStart(tree: Table, root: string)
    requires forall k | k in tree :: "." !in tree[k]
    ensures StartNode(tree, root) == root
  {
    if |Get(tree, root)| == 1 {
      assert Get(tree, root)[0] in tree[root];
    }
  }

  /** A finished walk from zeroed counters: its lines are the entries' lines, its counters count them, and no entry is ".". */
  lemma RenderedLines(tree: Table, lines: seq<string>, entries: seq<Entry>, dirs: nat, files: nat)
    requires forall k | k in tree :: "." !in tree[k]
    requires Progress(tree, [], lines, entries, 0, 0, dirs, files)
    ensures lines == Lines(entries) && dirs == CountDirs(tree, entries) && files == |entries| - CountDirs(tree, entries)
    ensures forall e | e in entries :: HasParent(tree, e.name) && e.name != "."
  {
    forall e | e in entries ensures e.name != "." {
      var k :| k in tree && e.name in tree[k];
    }
  }
}
