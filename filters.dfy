/**
 * The type and relation filters over a snapshot of `edges()`. A node's
 * runtime class is modelled as a kind tag given by `kind`, and `filter_by`
 * as a set of tags; `isinstance(x, filter_by)` is then membership of
 * `kind(x)` in that set.
 */
module Filters {
  import opened Wrappers
  import opened Graph

  /** The `filter_by` argument: one type, or a (non-string) sequence of types. */
  datatype FilterBy<T> = Single(tag: T) | Several(tags: seq<T>)

  /** The tuple `BaseTypeFilter` stores, as a set. */
  function FilterSet<T(==,!new)>(f: FilterBy<T>): (r: set<T>)
    ensures f.Single? ==> r == {f.tag}
    ensures f.Several? ==> forall t :: t in r <==> t in f.tags
  {
    match f
    case Single(t) => {t}
    case Several(ts) => set t | t in ts
  }

  /** `match(x)`: `x` is an instance of one of the filter's types. */
  function Match<N(==,!new), K(==,!new)>(f: FilterBy<K>, kind: N -> K, x: N): (r: bool)
    ensures f.Single? ==> (r <==> kind(x) == f.tag)
    ensures f.Several? ==> (r <==> kind(x) in f.tags)
  {
    kind(x) in FilterSet(f)
  }

  /** The filter's tuple is empty only for an empty sequence of types. */
  lemma FilterSetEmpty<T(!new)>(f: FilterBy<T>)
    ensures FilterSet(f) == {} <==> f == Several([])
  {
    if f.Several? && f.tags != [] {
      assert f.tags[0] in FilterSet(f);
    }
  }

  // ---------------------------------------------------------------------
  // Order-preserving selection, the shape of every generator below.

  /** The elements of `xs` satisfying `p`, in order. */
  function Keep<T(==,!new)>(xs: seq<T>, p: T -> bool): (r: seq<T>)
    ensures forall x :: x in r <==> x in xs && p(x)
    ensures |r| <= |xs|
  {
    if xs == [] then []
    else if p(xs[0]) then [xs[0]] + Keep(xs[1..], p)
    else Keep(xs[1..], p)
  }

  /** `a` is `b` with some elements left out, the rest in their order. */
  predicate SubseqOf<T(==)>(a: seq<T>, b: seq<T>)
    decreases |b|
  {
    if a == [] then true
    else if b == [] then false
    else if a[0] == b[0] then SubseqOf(a[1..], b[1..])
    else SubseqOf(a, b[1..])
  }

  /** Selection keeps order. */
  lemma {:induction false} KeepSubseq<T(!new)>(xs: seq<T>, p: T -> bool)
    ensures SubseqOf(Keep(xs, p), xs)
  {
    if xs != [] {
      KeepSubseq(xs[1..], p);
      var rest := Keep(xs[1..], p);
      if !p(xs[0]) && rest != [] {
        assert rest[0] in rest;
      }
    }
  }

  /** Selecting with a predicate that holds everywhere keeps the list. */
  lemma {:induction false} KeepAll<T(!new)>(xs: seq<T>, p: T -> bool)
    requires forall x | x in xs :: p(x)
    ensures Keep(xs, p) == xs
  {
    if xs != [] {
      KeepAll(xs[1..], p);
      assert xs == [xs[0]] + xs[1..];
    }
  }

  /** Selection distributes over concatenation. */
  lemma {:induction false} KeepConcat<T(!new)>(a: seq<T>, b: seq<T>, p: T -> bool)
    ensures Keep(a + b, p) == Keep(a, p) + Keep(b, p)
  {
    if a != [] {
      assert (a + b)[0] == a[0] && (a + b)[1..] == a[1..] + b;
      KeepConcat(a[1..], b, p);
    } else {
      assert a + b == b;
    }
  }

  /** Selecting with a predicate that holds nowhere keeps nothing. */
  lemma {:induction false} KeepNone<T(!new)>(xs: seq<T>, p: T -> bool)
    requires forall x | x in xs :: !p(x)
    ensures Keep(xs, p) == []
  {
    if xs != [] {
      KeepNone(xs[1..], p);
    }
  }

  /** Selecting by `p` and by its negation splits `xs` with nothing lost or repeated. */
  lemma {:induction false} KeepPartition<T(!new)>(xs: seq<T>, p: T -> bool, q: T -> bool)
    requires forall x :: q(x) == !p(x)
    ensures multiset(Keep(xs, p)) + multiset(Keep(xs, q)) == multiset(xs)
  {
    if xs != [] {
      var x, rest := xs[0], xs[1..];
      KeepPartition(rest, p, q);
      assert xs == [x] + rest;
      assert multiset(xs) == multiset{x} + multiset(rest);
      if p(x) {
        assert Keep(xs, p) == [x] + Keep(rest, p) && Keep(xs, q) == Keep(rest, q);
      } else {
        assert Keep(xs, p) == Keep(rest, p) && Keep(xs, q) == [x] + Keep(rest, q);
      }
    }
  }

  // ---------------------------------------------------------------------
  // The three generators, applied to the edge list `es` that
  // `list(graph.edges())` snapshots.

  /** The ends `FilterNodeByClass` tests, edge by edge: target first, then source. */
  function Ends<N(==,!new), L(==,!new)>(es: seq<Edge<N, L>>): (r: seq<N>)
    ensures |r| == 2 * |es|
    ensures forall i | 0 <= i < |es| :: r[2 * i] == es[i].1 && r[2 * i + 1] == es[i].0
  {
    if es == [] then [] else [es[0].1, es[0].0] + Ends(es[1..])
  }

  /**
   * `FilterNodeByClass(filter_by, include)(graph)`: for each edge, its target
   * and then its source whenever its match equals `include`; nothing at all
   * for an empty filter.
   */
  function FilterNodeByClass<N(==,!new), L(==,!new), K(==,!new)>(es: seq<Edge<N, L>>, f: FilterBy<K>, incl: bool, kind: N -> K): (r: seq<N>)
    ensures FilterSet(f) == {} ==> r == []
  {
    if FilterSet(f) == {} then []
    else Keep(Ends(es), MatchTest(f, incl, kind))
  }

  /** The test `FilterNodeByClass` applies to one end: its match compared with `include`. */
  function MatchTest<N(==,!new), K(==,!new)>(f: FilterBy<K>, incl: bool, kind: N -> K): N -> bool {
    x => incl == Match(f, kind, x)
  }

  /**
   * What `FilterNodeByClass` yields: a node appears exactly when it is an end
   * of some edge and its match equals `include`, once for every such end, in
   * edge order; a node without edges never appears.
   */
  lemma FilterNodeByClassSpec<N(!new), L(!new), K(!new)>(es: seq<Edge<N, L>>, f: FilterBy<K>, incl: bool, kind: N -> K)
    requires FilterSet(f) != {}
    ensures forall x :: x in FilterNodeByClass(es, f, incl, kind) <==>
      incl == Match(f, kind, x) && EndOf(es, x)
    ensures SubseqOf(FilterNodeByClass(es, f, incl, kind), Ends(es))
  {
    var p := MatchTest(f, incl, kind);
    KeepSubseq(Ends(es), p);
    EndsMembers(es);
    forall x ensures p(x) == (incl == Match(f, kind, x)) {
    }
  }

  /** `x` is an end of some edge of `es`. */
  predicate EndOf<N(==), L>(es: seq<Edge<N, L>>, x: N) {
    exists i | 0 <= i < |es| :: x == es[i].0 || x == es[i].1
  }

  /** The edge ends are exactly the nodes that occur at one end of some edge. */
  lemma {:induction false} EndsMembers<N(!new), L(!new)>(es: seq<Edge<N, L>>)
    ensures forall x :: x in Ends(es) <==> EndOf(es, x)
  {
    if es != [] {
      EndsMembers(es[1..]);
      forall x | x in Ends(es)
        ensures exists i | 0 <= i < |es| :: x == es[i].0 || x == es[i].1
      {
        if x != es[0].0 && x != es[0].1 {
          assert x in Ends(es[1..]);
          var i :| 0 <= i < |es[1..]| && (x == es[1..][i].0 || x == es[1..][i].1);
          assert es[i + 1] == es[1..][i];
        }
      }
      forall x | exists i | 0 <= i < |es| :: x == es[i].0 || x == es[i].1
        ensures x in Ends(es)
      {
        var i :| 0 <= i < |es| && (x == es[i].0 || x == es[i].1);
        if i > 0 {
          assert es[1..][i - 1] == es[i];
        }
      }
    }
  }

  /** With include and exclude, every edge end is yielded by exactly one of the two. */
  lemma FilterNodeByClassPartition<N(!new), L(!new), K(!new)>(es: seq<Edge<N, L>>, f: FilterBy<K>, kind: N -> K)
    requires FilterSet(f) != {}
    ensures multiset(FilterNodeByClass(es, f, true, kind)) + multiset(FilterNodeByClass(es, f, false, kind))
      == multiset(Ends(es))
  {
    KeepPartition(Ends(es), MatchTest(f, true, kind), MatchTest(f, false, kind));
  }

  /** The test `FilterEdgeByClass` applies: whether both ends match, compared with `include`. */
  predicate BothEndsTest<N(==,!new), L(==,!new), K(==,!new)>(f: FilterBy<K>, incl: bool, kind: N -> K, e: Edge<N, L>) {
    incl == (Match(f, kind, e.1) && Match(f, kind, e.0))
  }

  /** `FilterEdgeByClass(filter_by, incl)(graph)`. */
  function FilterEdgeByClass<N(==,!new), L(==,!new), K(==,!new)>(es: seq<Edge<N, L>>, f: FilterBy<K>, incl: bool, kind: N -> K): (r: seq<Edge<N, L>>)
    ensures FilterSet(f) == {} ==> r == []
    ensures forall e :: e in r <==> FilterSet(f) != {} && e in es && BothEndsTest(f, incl, kind, e)
    ensures SubseqOf(r, es)
  {
    if FilterSet(f) == {} then []
    else
      KeepSubseq(es, e => BothEndsTest(f, incl, kind, e));
      Keep(es, e => BothEndsTest(f, incl, kind, e))
  }

  /** The test `FilterEdgeByRelations` applies: label membership (None is in no set), compared with `include`. */
  predicate LabelTest<N(==,!new), L(==,!new)>(rels: set<L>, incl: bool, e: Edge<N, L>) {
    incl == (e.2.Some? && e.2.value in rels)
  }

  /** `FilterEdgeByRelations(filter_by, incl)(graph)`. */
  function FilterEdgeByRelations<N(==,!new), L(==,!new)>(es: seq<Edge<N, L>>, f: FilterBy<L>, incl: bool): (r: seq<Edge<N, L>>)
    ensures FilterSet(f) == {} ==> r == []
    ensures forall e :: e in r <==> FilterSet(f) != {} && e in es && LabelTest(FilterSet(f), incl, e)
    ensures SubseqOf(r, es)
  {
    var rels := FilterSet(f);
    if rels == {} then []
    else
      KeepSubseq(es, e => LabelTest(rels, incl, e));
      Keep(es, e => LabelTest(rels, incl, e))
  }

  /** Exclude mode keeps exactly the edges with at least one end outside the filter. */
  lemma ExcludeEdgeByClass<N(!new), L(!new), K(!new)>(es: seq<Edge<N, L>>, f: FilterBy<K>, kind: N -> K, e: Edge<N, L>)
    requires FilterSet(f) != {} && e in es
    ensures e in FilterEdgeByClass(es, f, false, kind) <==> !Match(f, kind, e.0) || !Match(f, kind, e.1)
  {
  }

  /** The include and exclude outputs of `FilterEdgeByClass` split `edges()`, each keeping its order. */
  lemma FilterEdgeByClassPartition<N(!new), L(!new), K(!new)>(es: seq<Edge<N, L>>, f: FilterBy<K>, kind: N -> K)
    requires FilterSet(f) != {}
    ensures multiset(FilterEdgeByClass(es, f, true, kind)) + multiset(FilterEdgeByClass(es, f, false, kind)) == multiset(es)
  {
    KeepPartition(es, e => BothEndsTest(f, true, kind, e), e => BothEndsTest(f, false, kind, e));
  }

  /** The include and exclude outputs of `FilterEdgeByRelations` split `edges()`, each keeping its order. */
  lemma FilterEdgeByRelationsPartition<N(!new), L(!new)>(es: seq<Edge<N, L>>, f: FilterBy<L>)
    requires FilterSet(f) != {}
    ensures multiset(FilterEdgeByRelations(es, f, true)) + multiset(FilterEdgeByRelations(es, f, false)) == multiset(es)
  {
    var rels := FilterSet(f);
    KeepPartition(es, e => LabelTest(rels, true, e), e => LabelTest(rels, false, e));
  }
}
