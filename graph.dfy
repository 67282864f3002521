/**
 * The graph store `GraphX`: a directed simple graph with at most one optional
 * label per ordered pair, as the networkx `DiGraph` it wraps keeps it — nodes
 * in insertion order, each node's successors in the order
 * the edges were first added.
 */
module Graph {
  import opened Wrappers

  type Edge<N, L> = (N, N, Option<L>)

  /** No element occurs twice. */
  predicate Distinct<T(==)>(s: seq<T>) {
    forall i, j | 0 <= i < j < |s| :: s[i] != s[j]
  }

  /** `s` with every occurrence of `x` removed, order kept. */
  function Without<T(==,!new)>(s: seq<T>, x: T): (r: seq<T>)
    ensures forall y :: y in r <==> y in s && y != x
    ensures Distinct(s) ==> Distinct(r)
    ensures |r| <= |s|
  {
    if s == [] then []
    else if s[0] == x then Without(s[1..], x)
    else
      var rest := Without(s[1..], x);
      var r := [s[0]] + rest;
      assert Distinct(s) ==> s[0] !in s[1..] && Distinct(s[1..]);
      assert Distinct(s) ==> s[0] !in rest;
      r
  }

  /** `s` with `x` appended unless already present (how a dict gains a key). */
  function WithItem<T(==,!new)>(s: seq<T>, x: T): (r: seq<T>)
    ensures forall y :: y in r <==> y in s || y == x
    ensures Distinct(s) ==> Distinct(r)
  {
    if x in s then s else s + [x]
  }

  /** The edges out of `u`, each with its label, in successor order. */
  function OutEdges<N(==), L>(u: N, targets: seq<N>, data: map<(N, N), Option<L>>): (r: seq<Edge<N, L>>)
    requires forall v | v in targets :: (u, v) in data
    ensures |r| == |targets|
    ensures forall i | 0 <= i < |r| :: r[i] == (u, targets[i], data[(u, targets[i])])
  {
    seq(|targets|, i requires 0 <= i < |targets| => (u, targets[i], data[(u, targets[i])]))
  }

  /** The edges out of the nodes `ns`, node by node: the order `DiGraph.edges()` yields them in. */
  function EdgesOf<N(==), L>(ns: seq<N>, succ: map<N, seq<N>>, data: map<(N, N), Option<L>>): seq<Edge<N, L>>
    requires forall n | n in ns :: n in succ && forall v | v in succ[n] :: (n, v) in data
  {
    if ns == [] then [] else OutEdges(ns[0], succ[ns[0]], data) + EdgesOf(ns[1..], succ, data)
  }

  /** The list of edges out of `ns` holds exactly the stored pairs leaving `ns`, each with its label. */
  lemma {:induction false} EdgesOfExact<N(!new), L(!new)>(ns: seq<N>, succ: map<N, seq<N>>, data: map<(N, N), Option<L>>)
    requires forall n | n in ns :: n in succ && forall v | v in succ[n] :: (n, v) in data
    ensures forall e :: e in EdgesOf(ns, succ, data) <==>
      e.0 in ns && e.1 in succ[e.0] && e.2 == data[(e.0, e.1)]
  {
    if ns != [] {
      EdgesOfExact(ns[1..], succ, data);
      var out := OutEdges(ns[0], succ[ns[0]], data);
      forall e
        ensures e in EdgesOf(ns, succ, data) <==> e.0 in ns && e.1 in succ[e.0] && e.2 == data[(e.0, e.1)]
      {
        if e.0 == ns[0] && e.1 in succ[e.0] && e.2 == data[(e.0, e.1)] {
          var i :| 0 <= i < |succ[ns[0]]| && succ[ns[0]][i] == e.1;
          assert out[i] == e;
        }
      }
    }
  }

  /** Distinct nodes with distinct successor lists give each ordered pair at most once. */
  lemma {:induction false} EdgesOfUnique<N(!new), L(!new)>(ns: seq<N>, succ: map<N, seq<N>>, data: map<(N, N), Option<L>>)
    requires forall n | n in ns :: n in succ && forall v | v in succ[n] :: (n, v) in data
    requires Distinct(ns)
    requires forall n | n in ns :: Distinct(succ[n])
    ensures PairsDistinct(EdgesOf(ns, succ, data))
  {
    if ns != [] {
      EdgesOfUnique(ns[1..], succ, data);
      EdgesOfExact(ns[1..], succ, data);
      var out := OutEdges(ns[0], succ[ns[0]], data);
      var rest := EdgesOf(ns[1..], succ, data);
      var es := out + rest;
      forall i, j | 0 <= i < j < |es|
        ensures (es[i].0, es[i].1) != (es[j].0, es[j].1)
      {
        if j < |out| {
        } else if i < |out| {
          assert es[j] in rest;
          assert ns[0] !in ns[1..];
        } else {
          assert es[i] == rest[i - |out|] && es[j] == rest[j - |out|];
        }
      }
    }
  }

  /** No two entries of `es` are for the same ordered pair. */
  predicate PairsDistinct<N(==), L>(es: seq<Edge<N, L>>) {
    forall i, j | 0 <= i < j < |es| :: (es[i].0, es[i].1) != (es[j].0, es[j].1)
  }

  /**
   * The representation invariant: distinct nodes, one successor list per
   * node without repetitions and naming only nodes, and one label entry per
   * edge.
   */
  ghost predicate WF<N(!new), L>(ns: seq<N>, succ: map<N, seq<N>>, data: map<(N, N), Option<L>>) {
    && Distinct(ns)
    && (forall x :: x in succ <==> x in ns)
    && (forall u | u in succ :: Distinct(succ[u]))
    && (forall u, v | u in succ && v in succ[u] :: v in succ && (u, v) in data)
    && (forall e | e in data :: e.0 in succ && e.1 in succ[e.0])
  }

  lemma AddNodeWF<N(!new), L>(ns: seq<N>, succ: map<N, seq<N>>, data: map<(N, N), Option<L>>, n: N)
    requires WF(ns, succ, data) && n !in succ
    ensures WF(ns + [n], succ[n := []], data)
  {
  }

  lemma AddPairWF<N(!new), L>(ns: seq<N>, succ: map<N, seq<N>>, data: map<(N, N), Option<L>>, u: N, v: N, l: Option<L>)
    requires WF(ns, succ, data) && u in succ && v in succ && v !in succ[u]
    ensures WF(ns, succ[u := succ[u] + [v]], data[(u, v) := l])
  {
  }

  lemma RelabelWF<N(!new), L>(ns: seq<N>, succ: map<N, seq<N>>, data: map<(N, N), Option<L>>, u: N, v: N, l: Option<L>)
    requires WF(ns, succ, data) && (u, v) in data
    ensures WF(ns, succ, data[(u, v) := l])
  {
  }

  lemma RemoveNodeWF<N(!new), L>(ns: seq<N>, succ: map<N, seq<N>>, data: map<(N, N), Option<L>>, n: N)
    requires WF(ns, succ, data) && n in succ
    ensures WF(Without(ns, n), DropFromAll(succ, n), DropTouching(data, n))
  {
    var succ' := DropFromAll(succ, n);
    forall x | x in succ'
      ensures (forall y :: y in succ'[x] <==> y in succ[x] && y != n) && Distinct(succ'[x])
    {
      assert succ'[x] == Without(succ[x], n);
    }
    DroppedWF(ns, succ, data, n, Without(ns, n), succ', DropTouching(data, n));
  }

  /** The removal invariant, stated on the removal's results by their membership alone. */
  lemma DroppedWF<N(!new), L>(ns: seq<N>, succ: map<N, seq<N>>, data: map<(N, N), Option<L>>, n: N,
                               ns': seq<N>, succ': map<N, seq<N>>, data': map<(N, N), Option<L>>)
    requires WF(ns, succ, data)
    requires Distinct(ns') && forall x :: x in ns' <==> x in ns && x != n
    requires succ'.Keys == succ.Keys - {n}
    requires forall x | x in succ' :: (forall y :: y in succ'[x] <==> y in succ[x] && y != n) && Distinct(succ'[x])
    requires forall e :: e in data' <==> e in data && e.0 != n && e.1 != n
    ensures WF(ns', succ', data')
  {
    forall u, v | u in succ' && v in succ'[u] ensures v in succ' && (u, v) in data' {
      assert v in succ[u];
    }
    forall e | e in data' ensures e.0 in succ' && e.1 in succ'[e.0] {
      assert e.1 in succ[e.0];
    }
  }

  lemma RemovePairWF<N(!new), L>(ns: seq<N>, succ: map<N, seq<N>>, data: map<(N, N), Option<L>>, u: N, v: N)
    requires WF(ns, succ, data) && (u, v) in data
    ensures WF(ns, succ[u := Without(succ[u], v)], data - {(u, v)})
  {
  }

  /** `m` with a key `n` given an empty list unless present (how `add_node` meets a node). */
  function WithKey<N(==), T>(m: map<N, seq<T>>, n: N): (r: map<N, seq<T>>)
    ensures r.Keys == m.Keys + {n}
    ensures forall x | x in m :: r[x] == m[x]
    ensures n !in m ==> r[n] == []
  {
    if n in m then m else m[n := []]
  }

  /**
   * The successor lists after `add_edge(u, v)` for a new pair: the missing
   * ends are added (u first) and `v` goes last among the successors of `u`.
   */
  function Appended<N(==)>(m: map<N, seq<N>>, u: N, v: N): (r: map<N, seq<N>>)
    ensures r.Keys == m.Keys + {u, v}
    ensures r[u] == (if u in m then m[u] else []) + [v]
    ensures forall x | x in m && x != u :: r[x] == m[x]
  {
    var s := WithKey(WithKey(m, u), v);
    s[u := s[u] + [v]]
  }

  /** The elements of `s` that are listed in `keep`, in their order in `s`. */
  function Among<T(==,!new)>(s: seq<T>, keep: seq<T>): (r: seq<T>)
    ensures forall x :: x in r <==> x in s && x in keep
  {
    if s == [] then []
    else Among(s[..|s| - 1], keep) + (if s[|s| - 1] in keep then [s[|s| - 1]] else [])
  }

  /** Removes key `n` and every occurrence of `n` in the lists. */
  function DropFromAll<N(==,!new)>(m: map<N, seq<N>>, n: N): (r: map<N, seq<N>>)
    ensures r.Keys == m.Keys - {n}
    ensures forall x | x in r :: r[x] == Without(m[x], n)
  {
    map x | x in m && x != n :: Without(m[x], n)
  }

  /** Removes every pair that has `n` at either end. */
  function DropTouching<N(==,!new), L>(data: map<(N, N), Option<L>>, n: N): (r: map<(N, N), Option<L>>)
    ensures forall e :: e in r <==> e in data && e.0 != n && e.1 != n
    ensures forall e | e in r :: r[e] == data[e]
  {
    map e | e in data && e.0 != n && e.1 != n :: data[e]
  }

  class GraphX<N(==,!new), L(==,!new)> {
    /** The nodes, in insertion order. */
    var nodeSeq: seq<N>
    /** Each node's successors, in the order their edges were added. */
    var succ: map<N, seq<N>>
    /** The label of every edge; the keys are exactly the edges. */
    var data: map<(N, N), Option<L>>

    ghost predicate Valid()
      reads this
    {
      WF(nodeSeq, succ, data)
    }

    constructor ()
      ensures Valid()
      ensures nodeSeq == [] && data == map[]
    {
      nodeSeq, succ, data := [], map[], map[];
    }

    /** `has_node(n)` and `n in graph`. */
    function HasNode(n: N): (r: bool)
      reads this
      requires Valid()
      ensures r <==> n in nodeSeq
    {
      n in succ
    }

    /** `has_edge(u, v)`. */
    function HasEdge(u: N, v: N): (r: bool)
      reads this
      requires Valid()
      ensures r <==> u in succ && v in succ[u]
      ensures r ==> u in nodeSeq && v in nodeSeq
    {
      (u, v) in data
    }

    /** `nodes()`. */
    function Nodes(): (r: seq<N>)
      reads this
      requires Valid()
      ensures Distinct(r)
      ensures forall n :: n in r <==> HasNode(n)
    {
      nodeSeq
    }

    /** `len(graph)`: the number of distinct nodes. */
    function Len(): (r: nat)
      reads this
      requires Valid()
      ensures r == |set n | n in nodeSeq|
    {
      DistinctCard(nodeSeq);
      |nodeSeq|
    }

    /** `edges()`: the edges, source by source in node order, targets in insertion order. */
    function Edges(): seq<Edge<N, L>>
      reads this
      requires Valid()
    {
      EdgesOf(nodeSeq, succ, data)
    }

    /** `get_edge_data(u, v)`: the stored label of an edge, None for a pair that is not an edge. */
    function GetEdgeData(u: N, v: N): (r: Option<L>)
      reads this
      requires Valid()
      ensures HasEdge(u, v) ==> r == data[(u, v)]
      ensures !HasEdge(u, v) ==> r == None
    {
      if (u, v) in data then data[(u, v)] else None
    }

    /** `children(n)`: the targets of the edges out of `n`; None where networkx raises for an absent node. */
    function Children(n: N): (r: Option<seq<N>>)
      reads this
      requires Valid()
      ensures r.Some? <==> HasNode(n)
      ensures r.Some? ==> Distinct(r.value) && forall v :: v in r.value <==> HasEdge(n, v)
    {
      if n in succ then Some(succ[n]) else None
    }

    /**
     * `parents(n)`: the sources of the edges into `n`, listed here in node
     * order; None where networkx raises for an absent node.
     */
    function Parents(n: N): (r: Option<seq<N>>)
      reads this
      requires Valid()
      ensures r.Some? <==> HasNode(n)
      ensures r.Some? ==> Distinct(r.value) && forall u :: u in r.value <==> HasEdge(u, n)
    {
      if n in succ then Some(SourcesOf(nodeSeq, succ, n)) else None
    }

    /** `add_node(n)`: adds `n` at the end unless present. */
    method AddNode(n: N)
      requires Valid()
      modifies this
      ensures Valid()
      ensures nodeSeq == WithItem(old(nodeSeq), n)
      ensures data == old(data)
      ensures succ == WithKey(old(succ), n)
    {
      if n !in succ {
        AddNodeWF(nodeSeq, succ, data, n);
        nodeSeq := nodeSeq + [n];
        succ := succ[n := []];
      }
    }

    /**
     * `add_edge(u, v, data)`: adds the missing endpoints (u first), then the
     * edge; re-adding an existing pair only replaces its label.
     */
    method AddEdge(u: N, v: N, l: Option<L>)
      requires Valid()
      modifies this
      ensures Valid()
      ensures nodeSeq == WithItem(WithItem(old(nodeSeq), u), v)
      ensures data == old(data)[(u, v) := l]
      ensures HasNode(u) && HasNode(v) && HasEdge(u, v) && GetEdgeData(u, v) == l
      ensures succ == if (u, v) in old(data) then old(succ) else Appended(old(succ), u, v)
    {
      ghost var s0 := succ;
      AddNode(u);
      AddNode(v);
      assert succ == WithKey(WithKey(s0, u), v);
      if v !in succ[u] {
        AddPairWF(nodeSeq, succ, data, u, v, l);
        succ := succ[u := succ[u] + [v]];
        data := data[(u, v) := l];
        assert succ == Appended(s0, u, v);
      } else {
        RelabelWF(nodeSeq, succ, data, u, v, l);
        data := data[(u, v) := l];
      }
    }

    /** `remove_node(n)`: removes `n` and every edge touching it; `ok` is false where networkx raises. */
    method RemoveNode(n: N) returns (ok: bool)
      requires Valid()
      modifies this
      ensures Valid()
      ensures ok <==> old(HasNode(n))
      ensures !ok ==> nodeSeq == old(nodeSeq) && data == old(data)
      ensures ok ==> nodeSeq == Without(old(nodeSeq), n)
      ensures ok ==> data == DropTouching(old(data), n)
      ensures succ == if ok then DropFromAll(old(succ), n) else old(succ)
    {
      ok := n in succ;
      if ok {
        RemoveNodeWF(nodeSeq, succ, data, n);
        nodeSeq := Without(nodeSeq, n);
        succ := DropFromAll(succ, n);
        data := DropTouching(data, n);
      }
    }

    /** `remove_edge(u, v)`: removes that pair only, keeping both nodes; `ok` is false where networkx raises. */
    method RemoveEdge(u: N, v: N) returns (ok: bool)
      requires Valid()
      modifies this
      ensures Valid()
      ensures ok <==> old(HasEdge(u, v))
      ensures nodeSeq == old(nodeSeq)
      ensures data == old(data) - {(u, v)}
      ensures succ == if ok then old(succ)[u := Without(old(succ)[u], v)] else old(succ)
    {
      ok := (u, v) in data;
      if ok {
        RemovePairWF(nodeSeq, succ, data, u, v);
        succ := succ[u := Without(succ[u], v)];
        data := data - {(u, v)};
      }
    }

    /** Every stored edge is listed by `edges()` with its label, and nothing else is. */
    lemma EdgesExact()
      requires Valid()
      ensures forall e :: e in Edges() <==> HasEdge(e.0, e.1) && e.2 == data[(e.0, e.1)]
      ensures PairsDistinct(Edges())
    {
      EdgesOfExact(nodeSeq, succ, data);
      EdgesOfUnique(nodeSeq, succ, data);
    }

    /**
     * `subgraph(nodes)`: a new graph with the listed nodes that are present
     * and the edges between them, labels kept; being a fresh object, later
     * changes to this graph do not reach it.
     */
    method Subgraph(keep: seq<N>) returns (g: GraphX<N, L>)
      requires Valid()
      ensures fresh(g) && g.Valid()
      ensures forall n :: g.HasNode(n) <==> HasNode(n) && n in keep
      ensures g.nodeSeq == Among(nodeSeq, keep)
      ensures g.data == map e | e in data && e.0 in keep && e.1 in keep :: data[e]
    {
      g := CopyNodes(keep);
      EdgesExact();
      CopyEdges(g, Edges(), keep, data);
    }

    /** A fresh graph with no edges and with the nodes of this one listed in `keep`. */
    method CopyNodes(keep: seq<N>) returns (g: GraphX<N, L>)
      requires Valid()
      ensures fresh(g) && g.Valid() && g.data == map[]
      ensures forall n :: g.HasNode(n) <==> HasNode(n) && n in keep
      ensures g.nodeSeq == Among(nodeSeq, keep)
    {
      g := new GraphX();
      var i := 0;
      while i < |nodeSeq|
        invariant 0 <= i <= |nodeSeq|
        invariant fresh(g) && g.Valid()
        invariant g.data == map[]
        invariant g.nodeSeq == Among(nodeSeq[..i], keep)
      {
        assert nodeSeq[..i + 1][..i] == nodeSeq[..i];
        if nodeSeq[i] in keep {
          assert nodeSeq[i] !in nodeSeq[..i];
          g.AddNode(nodeSeq[i]);
        }
        i := i + 1;
      }
      assert nodeSeq[..i] == nodeSeq;
    }
  }

  /**
   * Adds to `g` every edge of `es` whose ends are both in `keep`, with its
   * label; `es` lists the edges of a graph whose labels are `data`.
   */
  method CopyEdges<N(==,!new), L(==,!new)>(g: GraphX<N, L>, es: seq<Edge<N, L>>, keep: seq<N>, ghost data: map<(N, N), Option<L>>)
    requires g.Valid() && g.data == map[]
    requires forall e :: e in es <==> (e.0, e.1) in data && e.2 == data[(e.0, e.1)]
    requires forall e | e in es && e.0 in keep && e.1 in keep :: g.HasNode(e.0) && g.HasNode(e.1)
    modifies g
    ensures g.Valid() && g.nodeSeq == old(g.nodeSeq)
    ensures g.data == map e | e in data && e.0 in keep && e.1 in keep :: data[e]
  {
    var k := 0;
    while k < |es|
      invariant 0 <= k <= |es|
      invariant g.Valid() && g.nodeSeq == old(g.nodeSeq)
      invariant CopiedUpTo(es, keep, data, g.data, k)
    {
      var e := es[k];
      CopyStep(es, keep, data, g.data, k);
      if e.0 in keep && e.1 in keep {
        g.AddEdge(e.0, e.1, e.2);
      }
      k := k + 1;
    }
    CopiedAll(es, keep, data, g.data);
  }

  /** `copied` holds the kept pairs of the first `k` edges of `es`, and only kept pairs of `data`, with their labels. */
  ghost predicate CopiedUpTo<N, L>(es: seq<Edge<N, L>>, keep: seq<N>, data: map<(N, N), Option<L>>, copied: map<(N, N), Option<L>>, k: nat) {
    && k <= |es|
    && (forall e | e in copied :: e in data && copied[e] == data[e] && e.0 in keep && e.1 in keep)
    && (forall j | 0 <= j < k && es[j].0 in keep && es[j].1 in keep :: (es[j].0, es[j].1) in copied)
  }

  lemma CopyStep<N(!new), L(!new)>(es: seq<Edge<N, L>>, keep: seq<N>, data: map<(N, N), Option<L>>, copied: map<(N, N), Option<L>>, k: nat)
    requires forall e :: e in es <==> (e.0, e.1) in data && e.2 == data[(e.0, e.1)]
    requires k < |es| && CopiedUpTo(es, keep, data, copied, k)
    ensures var e := es[k];
      CopiedUpTo(es, keep, data, if e.0 in keep && e.1 in keep then copied[(e.0, e.1) := e.2] else copied, k + 1)
  {
    assert es[k] in es;
  }

  /** Every pair of `data` between kept nodes is listed in `es`, so a map holding each listed kept pair holds it. */
  lemma CopiedAll<N(!new), L(!new)>(es: seq<Edge<N, L>>, keep: seq<N>, data: map<(N, N), Option<L>>, copied: map<(N, N), Option<L>>)
    requires forall e :: e in es <==> (e.0, e.1) in data && e.2 == data[(e.0, e.1)]
    requires forall j | 0 <= j < |es| && es[j].0 in keep && es[j].1 in keep :: (es[j].0, es[j].1) in copied
    requires forall e | e in copied :: e in data && copied[e] == data[e] && e.0 in keep && e.1 in keep
    ensures copied == map e | e in data && e.0 in keep && e.1 in keep :: data[e]
  {
    forall e | e in data && e.0 in keep && e.1 in keep
      ensures e in copied
    {
      var t := (e.0, e.1, data[e]);
      assert t in es;
      var j :| 0 <= j < |es| && es[j] == t;
    }
  }

  /** The nodes of `ns` (in that order) whose successor list holds `n`. */
  function SourcesOf<N(==,!new)>(ns: seq<N>, succ: map<N, seq<N>>, n: N): (r: seq<N>)
    requires forall x | x in ns :: x in succ
    ensures forall u :: u in r <==> u in ns && n in succ[u]
    ensures Distinct(ns) ==> Distinct(r)
  {
    if ns == [] then []
    else
      var rest := SourcesOf(ns[1..], succ, n);
      assert Distinct(ns) ==> ns[0] !in ns[1..] && Distinct(ns[1..]);
      if n in succ[ns[0]] then [ns[0]] + rest else rest
  }

  /** The ordered pairs an edge list mentions. */
  function PairsOf<N(==,!new), L(==)>(es: seq<Edge<N, L>>): (r: set<(N, N)>)
    ensures forall p :: p in r <==> exists e :: e in es && (e.0, e.1) == p
    ensures forall k | 0 <= k < |es| :: (es[k].0, es[k].1) in r
  {
    set e | e in es :: (e.0, e.1)
  }

  /** A list without repetitions has as many elements as its set. */
  lemma {:induction false} DistinctCard<T>(s: seq<T>)
    requires Distinct(s)
    ensures |set x | x in s| == |s|
  {
    if s != [] {
      DistinctCard(s[1..]);
      assert (set x | x in s) == (set x | x in s[1..]) + {s[0]};
      assert s[0] !in s[1..];
    }
  }
}
