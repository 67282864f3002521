/**
 * The structure analyzer: it resolves or creates module and class records,
 * visits a parsed module's imports and class definitions adding labelled
 * edges to the project graph, and the pipeline runs it (and the global-name
 * collector) over every file the graph holds.
 */
module StructureAnalysis {
  import opened Wrappers
  import opened Paths
  import opened Model
  import opened Records
  import opened Graph
  import opened Filters
  import opened Finders
  import opened Classifiers
  import Strings

  /** A parsed module, as far as the analyzers look at it. */
  datatype Stmt =
    | Import(names: seq<string>)
    | ImportFrom(base: Option<string>, names: seq<string>)
    | ClassDef(name: string, bases: seq<Expr>, decorators: seq<Expr>, body: seq<Stmt>)
    | Global(names: seq<string>)
      /** Any other statement, with the statements nested in it in visiting order. */
    | Block(body: seq<Stmt>)

  type ProjectGraph = GraphX<Node, Relation>

  /** Every node in `ns` refers to a record of `h`. */
  predicate AllResolve(h: Heap, ns: seq<Node>) {
    forall n | n in ns :: Resolves(h, n)
  }

  /**
   * The graph `(ns', data')` keeps every node and edge of `(ns, data)`, and
   * every edge it added or relabelled leaves a module or a class.
   */
  ghost predicate Grown(ns: seq<Node>, data: map<(Node, Node), Option<Relation>>, ns': seq<Node>, data': map<(Node, Node), Option<Relation>>) {
    && (forall n | n in ns :: n in ns')
    && (forall e | e in data :: e in data')
    && (forall e | e in data' && !(e in data && data'[e] == data[e]) :: StructureEdge(e.0, data'[e]))
  }

  /** An edge the structure analyzer writes: it leaves a module or a class and carries one of its four relations. */
  predicate StructureEdge(src: Node, l: Option<Relation>) {
    (src.ModuleNode? || src.ClassNode?) && l.Some? && l.value in {Imports, From, Defines, Inherit}
  }

  lemma GrownTrans(
    ns1: seq<Node>, d1: map<(Node, Node), Option<Relation>>,
    ns2: seq<Node>, d2: map<(Node, Node), Option<Relation>>,
    ns3: seq<Node>, d3: map<(Node, Node), Option<Relation>>)
    requires Grown(ns1, d1, ns2, d2) && Grown(ns2, d2, ns3, d3)
    ensures Grown(ns1, d1, ns3, d3)
  {
  }

  /** `getattr(node, "scope", UNKNOWN) == UNKNOWN`. */
  predicate ScopeUnknown(h: Heap, n: Node)
    requires Resolves(h, n)
  {
    ScopeOf(h, n).GetOr(Unknown) == Unknown
  }

  /**
   * After the aliases of an `import` resolved to `ts`: each is imported by
   * `src`, and every edge new or relabelled since `d0` is one of these.
   */
  ghost predicate ImportEdges(d0: map<(Node, Node), Option<Relation>>, d: map<(Node, Node), Option<Relation>>, src: Node, ts: seq<Node>) {
    && (forall i | 0 <= i < |ts| :: (src, ts[i]) in d && d[(src, ts[i])] == Some(Imports))
    && (forall e | e in d && !(e in d0 && d[e] == d0[e]) :: e.0 == src && e.1 in ts && d[e] == Some(Imports))
  }

  /** One more alias keeps `ImportEdges` and `Grown`. */
  lemma ImportStep(
    ns0: seq<Node>, d0: map<(Node, Node), Option<Relation>>,
    ns1: seq<Node>, d1: map<(Node, Node), Option<Relation>>, ns2: seq<Node>,
    src: Node, ts: seq<Node>, t: Node)
    requires ImportEdges(d0, d1, src, ts) && Grown(ns0, d0, ns1, d1)
    requires forall n | n in ns1 :: n in ns2
    requires src.ModuleNode?
    ensures ImportEdges(d0, d1[(src, t) := Some(Imports)], src, ts + [t])
    ensures Grown(ns0, d0, ns2, d1[(src, t) := Some(Imports)])
  {
    var d2 := d1[(src, t) := Some(Imports)];
    var ts' := ts + [t];
    forall i | 0 <= i < |ts'|
      ensures (src, ts'[i]) in d2 && d2[(src, ts'[i])] == Some(Imports)
    {
      if i < |ts| {
        assert ts'[i] == ts[i];
      }
    }
  }

  /** The edges one alias of `visit_ImportFrom` writes: IMPORTS from `src`, then FROM to the base unless it is the base. */
  function FromUpdate(d: map<(Node, Node), Option<Relation>>, src: Node, owner: Node, t: Node): (r: map<(Node, Node), Option<Relation>>)
    ensures (src, t) in r && r[(src, t)] == Some(Imports)
    ensures t != owner ==> (t, owner) in r && r[(t, owner)] == Some(From)
    ensures forall e | e in r && e != (src, t) && e != (t, owner) :: e in d && r[e] == d[e]
  {
    if t == owner then d[(src, t) := Some(Imports)]
    else d[(src, t) := Some(Imports)][(t, owner) := Some(From)]
  }

  /**
   * After the aliases resolved to `ts`: each is imported by `src` and, unless
   * it is the base, linked FROM to it; every edge new or relabelled since
   * `d0` is one of these, with its label.
   */
  ghost predicate FromEdges(d0: map<(Node, Node), Option<Relation>>, d: map<(Node, Node), Option<Relation>>, src: Node, owner: Node, ts: seq<Node>) {
    && (forall i | 0 <= i < |ts| :: (src, ts[i]) in d && (ts[i] != owner ==> (ts[i], owner) in d))
    && (forall e | e in d && !(e in d0 && d[e] == d0[e]) ::
          || (e.0 == src && e.1 in ts && d[e] == Some(Imports))
          || (e.0 in ts && e.1 == owner && e.0 != e.1 && d[e] == Some(From)))
  }

  /** One more alias keeps `FromEdges` and `Grown`. */
  lemma FromStep(
    ns0: seq<Node>, d0: map<(Node, Node), Option<Relation>>,
    ns1: seq<Node>, d1: map<(Node, Node), Option<Relation>>, ns2: seq<Node>,
    src: Node, owner: Node, ts: seq<Node>, t: Node)
    requires FromEdges(d0, d1, src, owner, ts) && Grown(ns0, d0, ns1, d1)
    requires forall n | n in ns1 :: n in ns2
    requires src.ModuleNode? && (t.ModuleNode? || t.ClassNode?)
    ensures FromEdges(d0, FromUpdate(d1, src, owner, t), src, owner, ts + [t])
    ensures Grown(ns0, d0, ns2, FromUpdate(d1, src, owner, t))
  {
    var d2 := FromUpdate(d1, src, owner, t);
    var ts' := ts + [t];
    forall i | 0 <= i < |ts'|
      ensures (src, ts'[i]) in d2 && (ts'[i] != owner ==> (ts'[i], owner) in d2)
    {
      if i < |ts| {
        assert ts'[i] == ts[i];
      }
    }
    forall e | e in d2 && !(e in d0 && d2[e] == d0[e])
      ensures || (e.0 == src && e.1 in ts' && d2[e] == Some(Imports))
              || (e.0 in ts' && e.1 == owner && e.0 != e.1 && d2[e] == Some(From))
    {
      if e != (src, t) && e != (t, owner) {
        assert e in d1 && d2[e] == d1[e];
      }
    }
  }

  /**
   * After the bases of class `cn` resolved to `ts`: each is linked INHERIT
   * from `cn`, and every edge new or relabelled since `d0` is one of these.
   */
  ghost predicate InheritEdges(d0: map<(Node, Node), Option<Relation>>, d: map<(Node, Node), Option<Relation>>, cn: Node, ts: seq<Node>) {
    && (forall i | 0 <= i < |ts| :: (cn, ts[i]) in d && d[(cn, ts[i])] == Some(Inherit))
    && (forall e | e in d && !(e in d0 && d[e] == d0[e]) :: e.0 == cn && e.1 in ts && d[e] == Some(Inherit))
  }

  /** One more base keeps `InheritEdges` and `Grown`. */
  lemma InheritStep(
    ns0: seq<Node>, d0: map<(Node, Node), Option<Relation>>,
    ns1: seq<Node>, d1: map<(Node, Node), Option<Relation>>, ns2: seq<Node>,
    cn: Node, ts: seq<Node>, t: Node)
    requires InheritEdges(d0, d1, cn, ts) && Grown(ns0, d0, ns1, d1)
    requires forall n | n in ns1 :: n in ns2
    requires cn.ClassNode?
    ensures InheritEdges(d0, d1[(cn, t) := Some(Inherit)], cn, ts + [t])
    ensures Grown(ns0, d0, ns2, d1[(cn, t) := Some(Inherit)])
  {
    var d2 := d1[(cn, t) := Some(Inherit)];
    var ts' := ts + [t];
    forall i | 0 <= i < |ts'|
      ensures (cn, ts'[i]) in d2 && d2[(cn, ts'[i])] == Some(Inherit)
    {
      if i < |ts| {
        assert ts'[i] == ts[i];
      }
    }
  }

  /** A DEFINES edge from the module followed by INHERIT edges from the class: what changed is exactly those edges. */
  lemma DefinedThenInherited(
    ns0: seq<Node>, d0: map<(Node, Node), Option<Relation>>,
    ns1: seq<Node>, d1: map<(Node, Node), Option<Relation>>,
    ns2: seq<Node>, d2: map<(Node, Node), Option<Relation>>,
    m: Node, cn: Node, ts: seq<Node>)
    requires m.ModuleNode? && cn.ClassNode?
    requires (forall n | n in ns0 :: n in ns1) && d1 == d0[(m, cn) := Some(Defines)]
    requires Grown(ns1, d1, ns2, d2) && InheritEdges(d1, d2, cn, ts)
    ensures Grown(ns0, d0, ns2, d2)
    ensures (m, cn) in d2 && d2[(m, cn)] == Some(Defines)
    ensures forall e | e in d2 && !(e in d0 && d2[e] == d0[e]) ::
      || (e == (m, cn) && d2[e] == Some(Defines))
      || (e.0 == cn && e.1 in ts && d2[e] == Some(Inherit))
  {
    assert Grown(ns0, d0, ns1, d1);
    GrownTrans(ns0, d0, ns1, d1, ns2, d2);
  }

  /** What the structure analysis reads and writes: the records, the graph's nodes in order and its labelled edges. */
  datatype AState = AState(heap: Heap, nodes: seq<Node>, edges: map<(Node, Node), Option<Relation>>)

  /** How a visit ends: `ok` when nothing raised, and the state it leaves. */
  datatype Outcome = Outcome(ok: bool, st: AState)

  /** Every node of the graph refers to a record. */
  predicate Fits(s: AState) {
    AllResolve(s.heap, s.nodes)
  }

  /** `add_edge(u, v, data=rel)`: the missing ends are added, `u` first, and the pair gets the label. */
  function WithEdge(s: AState, u: Node, v: Node, rel: Relation): (r: AState)
    requires Fits(s) && Resolves(s.heap, u) && Resolves(s.heap, v)
    ensures Fits(r)
  {
    AState(s.heap, WithItem(WithItem(s.nodes, u), v), s.edges[(u, v) := Some(rel)])
  }

  /** `add_node(t)` and then the IMPORTS edge from `src` to it. */
  function WithImport(s: AState, src: Node, t: Node): (r: AState)
    requires Fits(s) && Resolves(s.heap, src) && Resolves(s.heap, t)
    ensures Fits(r)
  {
    WithEdge(s.(nodes := WithItem(s.nodes, t)), src, t, Imports)
  }

  /** Records that only gained entries or scopes keep every reference of `ns` valid. */
  lemma AllResolveMono(h: Heap, h': Heap, ns: seq<Node>)
    requires AllResolve(h, ns) && ScopesOnly(h, h')
    ensures AllResolve(h', ns)
  {
    forall n | n in ns ensures Resolves(h', n) {
      ResolvesMono(h, h', n);
    }
  }

  /** The analyzer's current module is a module record and its current class a record, when set. */
  predicate Cursors(h: Heap, currentModule: Option<Node>, currentClass: Option<Node>) {
    && (currentModule.Some? ==> currentModule.value.ModuleNode? && Resolves(h, currentModule.value))
    && (currentClass.Some? ==> Resolves(h, currentClass.value))
  }

  /** `StructureAnalyzer` (with the `module`/`current_class` state of its base). */
  class StructureAnalyzer {
    const graph: ProjectGraph
    const store: Store
    const root: Path
    const classifier: ScopeClassifier
    var currentModule: Option<Node>
    var currentClass: Option<Node>

    ghost predicate Valid()
      reads this, graph, store
    {
      && graph.Valid()
      && AllResolve(store.heap, graph.nodeSeq)
      && classifier.root == root
      && Cursors(store.heap, currentModule, currentClass)
    }

    constructor (graph: ProjectGraph, store: Store, root: Path, fileExists: Path -> bool, findPath: string -> Option<Path>)
      requires graph.Valid() && AllResolve(store.heap, graph.nodeSeq)
      ensures Valid()
      ensures this.graph == graph && this.store == store && this.root == root
      ensures classifier.fileExists == fileExists && classifier.findPath == findPath
      ensures currentModule == None && currentClass == None
    {
      this.graph := graph;
      this.store := store;
      this.root := root;
      this.classifier := new ScopeClassifier(root, fileExists, findPath);
      currentModule := None;
      currentClass := None;
    }

    /** The scope the classifier gives a module record holding `file` and named `name`, from UNKNOWN. */
    function Classified(file: Option<FileInfo>, name: string): ImportScope
    {
      ClassifiedScope(classifier.fileExists, classifier.findPath, root, file, [name], Unknown)
    }

    /** The state the visits see. */
    ghost function Snap(): AState
      reads graph, store
    {
      AState(store.heap, graph.nodeSeq, graph.data)
    }

    // -------------------------------------------------------------------
    // The analyzer's effect, step by step, as functions of the state.

    /** A new module record is appended and, when its scope is UNKNOWN, classified. */
    function NewModuleOf(h: Heap, mi: ModuleInfo): (r: (Result<Node>, Heap))
      ensures r.0 == Success(ModuleNode(|h.modules|)) && Resolves(r.1, r.0.value)
      ensures ScopesOnly(h, r.1)
    {
      (Success(ModuleNode(|h.modules|)),
       h.(modules := h.modules + [if mi.scope == Unknown then mi.(scope := Classified(mi.file, mi.name)) else mi]))
    }

    /**
     * The tail of `_resolve_module`: a record whose scope is UNKNOWN goes
     * through the classifier, which only a module record survives.
     */
    function ClassifiedOf(h: Heap, n: Node): (r: (Result<Node>, Heap))
      requires Resolves(h, n)
      ensures ScopesOnly(h, r.1)
      ensures r.0.Success? <==> n.ModuleNode? || !ScopeUnknown(h, n)
      ensures r.0.Success? ==> r.0.value == n && (n.ModuleNode? || n.ClassNode?)
    {
      if !ScopeUnknown(h, n) then (Success(n), h)
      else if n.ModuleNode? then (Success(n), SetScope(h, n, Classified(h.modules[n.mref].file, h.modules[n.mref].name)))
      else (Failure("AttributeError"), h)
    }

    /**
     * `_resolve_module(name)` in state `s`: the node the import-path finder
     * gives, or a new module record (LOCAL, left as it is); a file found
     * becomes a new module record, classified; the records after it.
     */
    function ModuleOf(s: AState, name: string): (r: (Result<Node>, Heap))
      requires Fits(s)
      ensures ScopesOnly(s.heap, r.1)
      ensures r.0.Success? ==> Resolves(r.1, r.0.value) && (r.0.value.ModuleNode? || r.0.value.ClassNode?)
    {
      match FindNodeByImportLike(s.heap, root, s.nodes, name)
      case None => NewModuleOf(s.heap, NewModuleInfo(name))
      case Some(n) =>
        if n.FileNode? then NewModuleOf(s.heap, FileToModule(n.file))
        else
          assert Resolves(s.heap, n);
          var r := ClassifiedOf(s.heap, n);
          assert r.0.Success? ==> Resolves(r.1, n) by {
            if r.0.Success? { ResolvesMono(s.heap, r.1, n); }
          }
          r
    }

    /**
     * `_resolve_class(name, owner)` in state `s`: the first node named
     * `name`, or a new class record owned by `owner`; an UNKNOWN scope then
     * becomes the owner's, which raises on a record without a scope field.
     */
    function ClassOf(s: AState, name: string, owner: Node): (r: (Result<Node>, Heap))
      requires Fits(s) && Resolves(s.heap, owner) && (owner.ModuleNode? || owner.ClassNode?)
      ensures ScopesOnly(s.heap, r.1)
      ensures r.0.Success? ==> Resolves(r.1, r.0.value) && (r.0.value.ModuleNode? || r.0.value.ClassNode?)
    {
      var (node, h1) := ClassFoundOf(s, name, owner);
      ResolvesMono(s.heap, h1, owner);
      var r := ScopedOf(h1, node, owner);
      ScopesOnlyTrans(s.heap, h1, r.1);
      r
    }

    /** The first half of `_resolve_class`: the first node named `name`, or a new class record owned by `owner`. */
    function ClassFoundOf(s: AState, name: string, owner: Node): (r: (Node, Heap))
      requires Fits(s)
      ensures ScopesOnly(s.heap, r.1) && Resolves(r.1, r.0)
      ensures FindNodeByName(s.heap, s.nodes, name).Some? ==> r == (FindNodeByName(s.heap, s.nodes, name).value, s.heap)
    {
      var h := s.heap;
      match FindNodeByName(h, s.nodes, name)
      case None => (ClassNode(|h.classes|), h.(classes := h.classes + [NewClassInfo(name, owner)]))
      case Some(n) => (n, h)
    }

    /** The second half of `_resolve_class`: an UNKNOWN scope of `node` becomes the owner's; a record without a scope field raises. */
    function ScopedOf(h: Heap, node: Node, owner: Node): (r: (Result<Node>, Heap))
      requires Resolves(h, node) && Resolves(h, owner) && (owner.ModuleNode? || owner.ClassNode?)
      ensures ScopesOnly(h, r.1)
      ensures r.0.Success? ==> r.0.value == node && Resolves(r.1, node) && (node.ModuleNode? || node.ClassNode?)
      ensures r.0.Failure? <==> ScopeUnknown(h, node) && !(node.ModuleNode? || node.ClassNode?)
    {
      if !ScopeUnknown(h, node) then (Success(node), h)
      else if node.ModuleNode? || node.ClassNode? then (Success(node), SetScope(h, node, ScopeOf(h, owner).value))
      else (Failure(if node.FileNode? || node.DirNode? then "FrozenInstanceError" else "AttributeError"), h)
    }

    /**
     * One alias of `visit_ImportFrom`: the full name resolved as a module
     * when the import-path finder gives a module or a file for it, else the
     * alias resolved as a class owned by the base.
     */
    function ImportedOf(s: AState, fullName: string, alias: string, owner: Node): (r: (Result<Node>, Heap))
      requires Fits(s) && Resolves(s.heap, owner) && (owner.ModuleNode? || owner.ClassNode?)
      ensures ScopesOnly(s.heap, r.1)
      ensures r.0.Success? ==> Resolves(r.1, r.0.value) && (r.0.value.ModuleNode? || r.0.value.ClassNode?)
    {
      var found := FindNodeByImportLike(s.heap, root, s.nodes, fullName);
      if found.Some? && (found.value.ModuleNode? || found.value.FileNode?) then ModuleOf(s, fullName)
      else ClassOf(s, alias, owner)
    }

    /** One alias of `visit_Import` from module `src`: resolved, added and imported. */
    function ImportAliasOf(s: AState, src: Node, name: string): (r: Outcome)
      requires Fits(s) && Resolves(s.heap, src)
      ensures Fits(r.st) && ScopesOnly(s.heap, r.st.heap)
    {
      var (res, h) := ModuleOf(s, name);
      AllResolveMono(s.heap, h, s.nodes);
      ResolvesMono(s.heap, h, src);
      if res.Failure? then Outcome(false, s.(heap := h))
      else Outcome(true, WithImport(s.(heap := h), src, res.value))
    }

    /** `visit_Import` with the aliases `names`: one after the other, up to the first that raises. */
    function ImportsOf(s: AState, src: Node, names: seq<string>): (r: Outcome)
      requires Fits(s) && Resolves(s.heap, src)
      ensures Fits(r.st) && ScopesOnly(s.heap, r.st.heap)
      decreases |names|
    {
      if names == [] then Outcome(true, s)
      else
        var o := ImportAliasOf(s, src, names[0]);
        ResolvesMono(s.heap, o.st.heap, src);
        if !o.ok then o
        else
          var r := ImportsOf(o.st, src, names[1..]);
          ScopesOnlyTrans(s.heap, o.st.heap, r.st.heap);
          r
    }

    /** The full name `visit_ImportFrom` looks an alias up by. */
    static function FullName(baseName: string, alias: string): string {
      if baseName != "" then baseName + "." + alias else alias
    }

    /** One alias of `visit_ImportFrom` from `src`: imported, then linked FROM to the base unless it is the base. */
    function FromAliasOf(s: AState, src: Node, owner: Node, baseName: string, alias: string): (r: Outcome)
      requires Fits(s) && Resolves(s.heap, src) && Resolves(s.heap, owner) && (owner.ModuleNode? || owner.ClassNode?)
      ensures Fits(r.st) && ScopesOnly(s.heap, r.st.heap)
    {
      var (res, h) := ImportedOf(s, FullName(baseName, alias), alias, owner);
      AllResolveMono(s.heap, h, s.nodes);
      ResolvesMono(s.heap, h, src);
      ResolvesMono(s.heap, h, owner);
      if res.Failure? then Outcome(false, s.(heap := h))
      else
        var t := res.value;
        var s1 := WithImport(s.(heap := h), src, t);
        Outcome(true, if owner != t then WithEdge(s1, t, owner, From) else s1)
    }

    /** The alias loop of `visit_ImportFrom`, up to the first alias that raises. */
    function FromAliasesOf(s: AState, src: Node, owner: Node, baseName: string, names: seq<string>): (r: Outcome)
      requires Fits(s) && Resolves(s.heap, src) && Resolves(s.heap, owner) && (owner.ModuleNode? || owner.ClassNode?)
      ensures Fits(r.st) && ScopesOnly(s.heap, r.st.heap)
      decreases |names|
    {
      if names == [] then Outcome(true, s)
      else
        var o := FromAliasOf(s, src, owner, baseName, names[0]);
        ResolvesMono(s.heap, o.st.heap, src);
        ResolvesMono(s.heap, o.st.heap, owner);
        if !o.ok then o
        else
          var r := FromAliasesOf(o.st, src, owner, baseName, names[1..]);
          ScopesOnlyTrans(s.heap, o.st.heap, r.st.heap);
          r
    }

    /** `visit_ImportFrom`: the base resolved as a module (the empty name when there is none), then the aliases. */
    function ImportFromOf(s: AState, src: Node, base: Option<string>, names: seq<string>): (r: Outcome)
      requires Fits(s) && Resolves(s.heap, src)
      ensures Fits(r.st) && ScopesOnly(s.heap, r.st.heap)
    {
      var baseName := base.GetOr("");
      var (b, h) := ModuleOf(s, baseName);
      AllResolveMono(s.heap, h, s.nodes);
      ResolvesMono(s.heap, h, src);
      if b.Failure? then Outcome(false, s.(heap := h))
      else
        var r := FromAliasesOf(s.(heap := h), src, b.value, baseName, names);
        ScopesOnlyTrans(s.heap, h, r.st.heap);
        r
    }

    /** The first half of `visit_ClassDef`: the class record appended, and the DEFINES edge from the module to it. */
    function OpenClassOf(s: AState, src: Node, name: string, bases: seq<Expr>, decorators: seq<Expr>): (r: AState)
      requires Fits(s) && src.ModuleNode? && Resolves(s.heap, src)
      ensures Fits(r) && ScopesOnly(s.heap, r.heap)
      ensures Resolves(r.heap, ClassNode(|s.heap.classes|))
    {
      var h := s.heap;
      var h1 := h.(classes := h.classes + [ClassRecord(name, src, h.modules[src.mref].scope, bases, decorators)]);
      assert ScopesOnly(h, h1);
      AllResolveMono(h, h1, s.nodes);
      WithEdge(s.(heap := h1), src, ClassNode(|h.classes|), Defines)
    }

    /** One base of `visit_ClassDef`: resolved as a class owned by the module, linked INHERIT from the class. */
    function InheritBaseOf(s: AState, cn: Node, src: Node, name: string): (r: Outcome)
      requires Fits(s) && Resolves(s.heap, cn) && src.ModuleNode? && Resolves(s.heap, src)
      ensures Fits(r.st) && ScopesOnly(s.heap, r.st.heap)
    {
      var (res, h) := ClassOf(s, name, src);
      AllResolveMono(s.heap, h, s.nodes);
      ResolvesMono(s.heap, h, cn);
      if res.Failure? then Outcome(false, s.(heap := h))
      else Outcome(true, WithEdge(s.(heap := h), cn, res.value, Inherit))
    }

    /** The base loop of `visit_ClassDef`, up to the first base that raises. */
    function InheritsOf(s: AState, cn: Node, src: Node, names: seq<string>): (r: Outcome)
      requires Fits(s) && Resolves(s.heap, cn) && src.ModuleNode? && Resolves(s.heap, src)
      ensures Fits(r.st) && ScopesOnly(s.heap, r.st.heap)
      decreases |names|
    {
      if names == [] then Outcome(true, s)
      else
        var o := InheritBaseOf(s, cn, src, names[0]);
        ResolvesMono(s.heap, o.st.heap, src);
        ResolvesMono(s.heap, o.st.heap, cn);
        if !o.ok then o
        else
          var r := InheritsOf(o.st, cn, src, names[1..]);
          ScopesOnlyTrans(s.heap, o.st.heap, r.st.heap);
          r
    }

    /** `visit_ClassDef` up to its nested statements. */
    function DefineClassOf(s: AState, src: Node, name: string, bases: seq<Expr>, decorators: seq<Expr>): (r: Outcome)
      requires Fits(s) && src.ModuleNode? && Resolves(s.heap, src)
      ensures Fits(r.st) && ScopesOnly(s.heap, r.st.heap)
    {
      var s1 := OpenClassOf(s, src, name, bases, decorators);
      ResolvesMono(s.heap, s1.heap, src);
      var r := InheritsOf(s1, ClassNode(|s.heap.classes|), src, BaseNames(bases));
      ScopesOnlyTrans(s.heap, s1.heap, r.st.heap);
      r
    }

    /** The visit of a statement list from module `src`, up to the first statement that raises. */
    function VisitOf(s: AState, src: Node, stmts: seq<Stmt>): (r: Outcome)
      requires Fits(s) && src.ModuleNode? && Resolves(s.heap, src)
      ensures Fits(r.st) && ScopesOnly(s.heap, r.st.heap)
      decreases stmts
    {
      if stmts == [] then Outcome(true, s)
      else
        assert stmts[0] in stmts;
        var o := StmtOf(s, src, stmts[0]);
        ResolvesMono(s.heap, o.st.heap, src);
        if !o.ok then o
        else
          var r := VisitOf(o.st, src, stmts[1..]);
          ScopesOnlyTrans(s.heap, o.st.heap, r.st.heap);
          r
    }

    /** The visit of one statement: imports and class definitions by their visitors, nested bodies after them. */
    function StmtOf(s: AState, src: Node, st: Stmt): (r: Outcome)
      requires Fits(s) && src.ModuleNode? && Resolves(s.heap, src)
      ensures Fits(r.st) && ScopesOnly(s.heap, r.st.heap)
      decreases st
    {
      match st
      case Import(names) => ImportsOf(s, src, names)
      case ImportFrom(base, names) => ImportFromOf(s, src, base, names)
      case ClassDef(name, bases, decorators, body) =>
        var o := DefineClassOf(s, src, name, bases, decorators);
        ResolvesMono(s.heap, o.st.heap, src);
        if !o.ok then o
        else
          var r := VisitOf(o.st, src, body);
          ScopesOnlyTrans(s.heap, o.st.heap, r.st.heap);
          r
      case Global(_) => Outcome(true, s)
      case Block(body) => VisitOf(s, src, body)
    }

    /** The visit of `stmts[k..]` is the visit of `stmts[k]` followed, when it does not raise, by the visit of the rest. */
    lemma VisitOfStep(s: AState, src: Node, stmts: seq<Stmt>, k: nat)
      requires Fits(s) && src.ModuleNode? && Resolves(s.heap, src) && k < |stmts|
      ensures var o := StmtOf(s, src, stmts[k]);
        && Resolves(o.st.heap, src)
        && VisitOf(s, src, stmts[k..]) == if o.ok then VisitOf(o.st, src, stmts[k + 1..]) else o
    {
      ResolvesMono(s.heap, StmtOf(s, src, stmts[k]).st.heap, src);
      assert stmts[k..][0] == stmts[k] && stmts[k..][1..] == stmts[k + 1..];
    }

    /**
     * `_resolve_module(name)`: the node the import-path finder gives, or a new
     * module record; a file becomes a new module record; the classifier runs
     * only on an UNKNOWN scope, and fails (AttributeError) on a record that
     * is not a module.
     */
    method ResolveModule(name: string) returns (r: Result<Node>)
      requires Valid()
      modifies store
      ensures Valid() && ScopesOnly(old(store.heap), store.heap)
      ensures r.Success? ==> Resolves(store.heap, r.value) && (r.value.ModuleNode? || r.value.ClassNode?)
      ensures (r, store.heap) == ModuleOf(old(Snap()), name)
    {
      var found := FindNodeByImportLike(store.heap, root, graph.nodeSeq, name);
      if found.None? {
        r := ResolveNew(name);
      } else if found.value.FileNode? {
        r := ResolveFile(found.value.file);
      } else {
        r := ResolveFound(found.value);
      }
    }

    /** The tail of `_resolve_module` for a node the finder returned that is not a file. */
    method ResolveFound(n: Node) returns (r: Result<Node>)
      requires Valid() && n in graph.nodeSeq && !n.FileNode?
      modifies store
      ensures Valid() && ScopesOnly(old(store.heap), store.heap)
      ensures (r, store.heap) == ClassifiedOf(old(store.heap), n)
    {
      assert Resolves(store.heap, n);
      r := ClassifyIfUnknown(n);
    }

    /** `_resolve_module` when nothing was found: a new LOCAL module record, left as it is. */
    method ResolveNew(name: string) returns (r: Result<Node>)
      requires Valid()
      modifies store
      ensures Valid() && ScopesOnly(old(store.heap), store.heap)
      ensures r == Success(ModuleNode(|old(store.heap).modules|)) && Resolves(store.heap, r.value)
      ensures store.heap == old(store.heap).(modules := old(store.heap).modules + [NewModuleInfo(name)])
    {
      r := AddModuleRecord(NewModuleInfo(name));
    }

    /** `_resolve_module` when a file was found: a new module record for it, classified from UNKNOWN. */
    method ResolveFile(f: FileInfo) returns (r: Result<Node>)
      requires Valid()
      modifies store
      ensures Valid() && ScopesOnly(old(store.heap), store.heap)
      ensures r == Success(ModuleNode(|old(store.heap).modules|)) && Resolves(store.heap, r.value)
      ensures store.heap == old(store.heap).(modules := old(store.heap).modules + [FileToModule(f).(scope := Classified(Some(f), f.name))])
    {
      r := AddModuleRecord(FileToModule(f));
    }

    /** A new module record is stored, then classified when its scope is UNKNOWN. */
    method AddModuleRecord(mi: ModuleInfo) returns (r: Result<Node>)
      requires Valid()
      modifies store
      ensures Valid() && ScopesOnly(old(store.heap), store.heap)
      ensures (r, store.heap) == NewModuleOf(old(store.heap), mi)
    {
      ghost var h := store.heap;
      var node := store.AddModule(mi);
      r := ClassifyIfUnknown(node);
      assert (h.modules + [mi])[|h.modules| := mi.(scope := Classified(mi.file, mi.name))]
        == h.modules + [mi.(scope := Classified(mi.file, mi.name))];
    }

    /**
     * The tail of `_resolve_module`: a record whose scope is UNKNOWN goes
     * through the classifier, which only a module record survives.
     */
    method ClassifyIfUnknown(node: Node) returns (r: Result<Node>)
      requires Valid() && Resolves(store.heap, node)
      modifies store
      ensures Valid() && ScopesOnly(old(store.heap), store.heap)
      ensures (r, store.heap) == ClassifiedOf(old(store.heap), node)
    {
      if ScopeUnknown(store.heap, node) {
        if !node.ModuleNode? {
          return Failure("AttributeError");
        }
        var m := store.heap.modules[node.mref];
        classifier.Classify([m.name], store, node);
      }
      r := Success(node);
    }

    /**
     * `_resolve_class(name, module)`: the first node named `name`, or a new
     * class record owned by `owner`; an UNKNOWN scope is replaced by the
     * owner's, which fails on a record that has no scope field.
     */
    method ResolveClass(name: string, owner: Node) returns (r: Result<Node>)
      requires Valid() && Resolves(store.heap, owner) && (owner.ModuleNode? || owner.ClassNode?)
      modifies store
      ensures Valid() && ScopesOnly(old(store.heap), store.heap)
      ensures r.Success? ==> Resolves(store.heap, r.value) && (r.value.ModuleNode? || r.value.ClassNode?)
      ensures (r, store.heap) == ClassOf(old(Snap()), name, owner)
    {
      ghost var h := store.heap;
      var node := FindOrAddClass(name, owner);
      ghost var h1 := store.heap;
      ResolvesMono(h, h1, owner);
      r := FillScope(node, owner);
      ScopesOnlyTrans(h, h1, store.heap);
    }

    /** The first half of `_resolve_class`: the node found by name, or a new class record. */
    method FindOrAddClass(name: string, owner: Node) returns (node: Node)
      requires Valid()
      modifies store
      ensures Valid() && ScopesOnly(old(store.heap), store.heap) && Resolves(store.heap, node)
      ensures (node, store.heap) == ClassFoundOf(old(Snap()), name, owner)
    {
      var found := FindNodeByName(store.heap, graph.nodeSeq, name);
      if found.None? {
        node := store.AddClass(NewClassInfo(name, owner));
      } else {
        node := found.value;
        assert Resolves(store.heap, node);
      }
      AllResolveMono(old(store.heap), store.heap, graph.nodeSeq);
    }

    /** The second half of `_resolve_class`: the owner's scope for an UNKNOWN one. */
    method FillScope(node: Node, owner: Node) returns (r: Result<Node>)
      requires Valid() && Resolves(store.heap, node) && Resolves(store.heap, owner) && (owner.ModuleNode? || owner.ClassNode?)
      modifies store
      ensures Valid() && ScopesOnly(old(store.heap), store.heap)
      ensures (r, store.heap) == ScopedOf(old(store.heap), node, owner)
    {
      if ScopeUnknown(store.heap, node) {
        if !(node.ModuleNode? || node.ClassNode?) {
          return Failure(if node.FileNode? || node.DirNode? then "FrozenInstanceError" else "AttributeError");
        }
        store.AssignScope(node, ScopeOf(store.heap, owner).value);
        AllResolveMono(old(store.heap), store.heap, graph.nodeSeq);
      }
      r := Success(node);
    }

    /**
     * `visit_Import`: each alias is resolved as a module and gets an IMPORTS
     * edge from the current module; a resolution that raises ends the visit.
     */
    method VisitImport(names: seq<string>) returns (ok: bool, ghost imported: seq<Node>)
      requires Valid() && currentModule.Some?
      modifies graph, store
      ensures Valid() && ScopesOnly(old(store.heap), store.heap)
      ensures Grown(old(graph.nodeSeq), old(graph.data), graph.nodeSeq, graph.data)
      ensures ok ==> |imported| == |names|
      ensures ImportEdges(old(graph.data), graph.data, currentModule.value, imported)
      ensures Outcome(ok, Snap()) == ImportsOf(old(Snap()), currentModule.value, names)
    {
      ghost var ns0, d0, h0 := graph.nodeSeq, graph.data, store.heap;
      var src := currentModule.value;
      ghost var whole := ImportsOf(Snap(), src, names);
      imported := [];
      var k := 0;
      while k < |names|
        invariant 0 <= k <= |names| && |imported| == k
        invariant Valid() && currentModule == old(currentModule) && ScopesOnly(h0, store.heap)
        invariant Grown(ns0, d0, graph.nodeSeq, graph.data)
        invariant ImportEdges(d0, graph.data, src, imported)
        invariant whole == ImportsOf(Snap(), src, names[k..])
      {
        ghost var h1 := store.heap;
        var t;
        ok, t := ImportNext(names, k, ns0, d0, imported);
        ScopesOnlyTrans(h0, h1, store.heap);
        if !ok {
          return false, imported;
        }
        imported := imported + [t];
        k := k + 1;
      }
      assert names[k..] == [];
      ok := true;
    }

    /** One turn of the `visit_Import` loop, with the aliases `rest` still to come. */
    method ImportNext(names: seq<string>, k: nat, ghost ns0: seq<Node>, ghost d0: map<(Node, Node), Option<Relation>>, ghost imported: seq<Node>)
      returns (ok: bool, t: Node)
      requires Valid() && currentModule.Some? && k < |names|
      requires Grown(ns0, d0, graph.nodeSeq, graph.data) && ImportEdges(d0, graph.data, currentModule.value, imported)
      modifies graph, store
      ensures Valid() && ScopesOnly(old(store.heap), store.heap)
      ensures Grown(ns0, d0, graph.nodeSeq, graph.data)
      ensures ImportEdges(d0, graph.data, currentModule.value, if ok then imported + [t] else imported)
      ensures ImportsOf(old(Snap()), currentModule.value, names[k..])
              == if ok then ImportsOf(Snap(), currentModule.value, names[k + 1..]) else Outcome(false, Snap())
    {
      ghost var ns1, d1 := graph.nodeSeq, graph.data;
      ok, t := ImportAlias(names[k]);
      assert names[k..][0] == names[k] && names[k..][1..] == names[k + 1..];
      if ok {
        ImportStep(ns0, d0, ns1, d1, graph.nodeSeq, currentModule.value, imported, t);
      }
    }

    /** One alias of `visit_Import`: resolved as a module, added, and imported by the current module. */
    method ImportAlias(name: string) returns (ok: bool, t: Node)
      requires Valid() && currentModule.Some?
      modifies graph, store
      ensures Valid() && ScopesOnly(old(store.heap), store.heap)
      ensures forall n | n in old(graph.nodeSeq) :: n in graph.nodeSeq
      ensures !ok ==> graph.data == old(graph.data)
      ensures ok ==> graph.data == old(graph.data)[(currentModule.value, t) := Some(Imports)]
      ensures ok ==> t.ModuleNode? || t.ClassNode?
      ensures Outcome(ok, Snap()) == ImportAliasOf(old(Snap()), currentModule.value, name)
      ensures ok ==> ModuleOf(old(Snap()), name).0 == Success(t)
    {
      var r := ResolveModule(name);
      if r.Failure? {
        return false, currentModule.value;
      }
      t := r.value;
      AddImportEdge(t);
      ok := true;
    }

    /** `add_node(imported)` and then the IMPORTS edge from the current module to it. */
    method AddImportEdge(t: Node)
      requires Valid() && currentModule.Some? && Resolves(store.heap, t)
      modifies graph
      ensures Valid()
      ensures forall n | n in old(graph.nodeSeq) :: n in graph.nodeSeq
      ensures graph.data == old(graph.data)[(currentModule.value, t) := Some(Imports)]
      ensures Snap() == WithImport(old(Snap()), currentModule.value, t)
    {
      graph.AddNode(t);
      Link(currentModule.value, t, Imports);
    }

    /** `add_edge(u, v, data=rel)` between two records of the store. */
    method Link(u: Node, v: Node, rel: Relation)
      requires Valid() && Resolves(store.heap, u) && Resolves(store.heap, v)
      modifies graph
      ensures Valid()
      ensures forall n | n in old(graph.nodeSeq) :: n in graph.nodeSeq
      ensures graph.data == old(graph.data)[(u, v) := Some(rel)]
      ensures Snap() == WithEdge(old(Snap()), u, v, rel)
    {
      graph.AddEdge(u, v, Some(rel));
    }

    /**
     * `visit_ImportFrom`: the base is resolved as a module (the empty name for
     * a relative import without one); each alias becomes the module its
     * dotted full name finds, or else a class owned by the base, and gets an
     * IMPORTS edge from the current module and, unless it is the base itself,
     * a FROM edge to the base.
     */
    method VisitImportFrom(base: Option<string>, names: seq<string>) returns (ok: bool, ghost baseNode: Option<Node>, ghost imported: seq<Node>)
      requires Valid() && currentModule.Some?
      modifies graph, store
      ensures Valid() && ScopesOnly(old(store.heap), store.heap)
      ensures Outcome(ok, Snap()) == ImportFromOf(old(Snap()), currentModule.value, base, names)
      ensures Grown(old(graph.nodeSeq), old(graph.data), graph.nodeSeq, graph.data)
      ensures ok ==> baseNode.Some? && |imported| == |names|
      ensures baseNode.None? ==> imported == [] && graph.data == old(graph.data)
      ensures baseNode.Some? ==> FromEdges(old(graph.data), graph.data, currentModule.value, baseNode.value, imported)
      ensures baseNode.Some? ==> ModuleOf(old(Snap()), base.GetOr("")).0 == Success(baseNode.value)
    {
      var baseName := base.GetOr("");
      ghost var S0 := Snap();
      var b := ResolveBase(baseName);
      ghost var S1 := Snap();
      assert S1 == S0.(heap := store.heap);
      if b.Failure? {
        return false, None, [];
      }
      baseNode := Some(b.value);
      ok, imported := ImportFromAliases(baseName, names, b.value);
      ScopesOnlyTrans(S0.heap, S1.heap, store.heap);
      assert Outcome(ok, Snap()) == ImportFromOf(S0, currentModule.value, base, names) by {
        assert Outcome(ok, Snap()) == FromAliasesOf(S1, currentModule.value, b.value, baseName, names);
      }
    }

    /** The base of `visit_ImportFrom`, resolved as a module; only its kind matters to the alias loop. */
    method ResolveBase(name: string) returns (r: Result<Node>)
      requires Valid()
      modifies store
      ensures Valid() && ScopesOnly(old(store.heap), store.heap)
      ensures r.Success? ==> Resolves(store.heap, r.value) && (r.value.ModuleNode? || r.value.ClassNode?)
      ensures (r, store.heap) == ModuleOf(old(Snap()), name)
    {
      r := ResolveModule(name);
    }

    /** The alias loop of `visit_ImportFrom`, for the base `owner` named `baseName`. */
    method ImportFromAliases(baseName: string, names: seq<string>, owner: Node) returns (ok: bool, ghost imported: seq<Node>)
      requires Valid() && currentModule.Some?
      requires Resolves(store.heap, owner) && (owner.ModuleNode? || owner.ClassNode?)
      modifies graph, store
      ensures Valid() && ScopesOnly(old(store.heap), store.heap)
      ensures Grown(old(graph.nodeSeq), old(graph.data), graph.nodeSeq, graph.data)
      ensures ok ==> |imported| == |names|
      ensures FromEdges(old(graph.data), graph.data, currentModule.value, owner, imported)
      ensures Outcome(ok, Snap()) == FromAliasesOf(old(Snap()), currentModule.value, owner, baseName, names)
    {
      ghost var ns0, d0, h0 := graph.nodeSeq, graph.data, store.heap;
      var src := currentModule.value;
      ghost var whole := FromAliasesOf(Snap(), src, owner, baseName, names);
      imported := [];
      var k := 0;
      while k < |names|
        invariant 0 <= k <= |names| && |imported| == k
        invariant Valid() && currentModule == old(currentModule) && ScopesOnly(h0, store.heap)
        invariant Resolves(store.heap, owner) && (owner.ModuleNode? || owner.ClassNode?)
        invariant Grown(ns0, d0, graph.nodeSeq, graph.data)
        invariant FromEdges(d0, graph.data, src, owner, imported)
        invariant forall t | t in imported :: t.ModuleNode? || t.ClassNode?
        invariant whole == FromAliasesOf(Snap(), src, owner, baseName, names[k..])
      {
        ghost var h1 := store.heap;
        var t;
        ok, t := FromNext(baseName, names, k, owner, ns0, d0, imported);
        ScopesOnlyTrans(h0, h1, store.heap);
        if !ok {
          return false, imported;
        }
        imported := imported + [t];
        k := k + 1;
      }
      assert names[k..] == [];
      ok := true;
    }

    /** One turn of the alias loop of `visit_ImportFrom`, with the aliases `rest` still to come. */
    method FromNext(baseName: string, names: seq<string>, k: nat, owner: Node,
                    ghost ns0: seq<Node>, ghost d0: map<(Node, Node), Option<Relation>>, ghost imported: seq<Node>)
      returns (ok: bool, t: Node)
      requires Valid() && currentModule.Some? && k < |names|
      requires Resolves(store.heap, owner) && (owner.ModuleNode? || owner.ClassNode?)
      requires Grown(ns0, d0, graph.nodeSeq, graph.data) && FromEdges(d0, graph.data, currentModule.value, owner, imported)
      modifies graph, store
      ensures Valid() && ScopesOnly(old(store.heap), store.heap)
      ensures Resolves(store.heap, owner)
      ensures Grown(ns0, d0, graph.nodeSeq, graph.data)
      ensures FromEdges(d0, graph.data, currentModule.value, owner, if ok then imported + [t] else imported)
      ensures ok ==> t.ModuleNode? || t.ClassNode?
      ensures FromAliasesOf(old(Snap()), currentModule.value, owner, baseName, names[k..])
              == if ok then FromAliasesOf(Snap(), currentModule.value, owner, baseName, names[k + 1..]) else Outcome(false, Snap())
    {
      ghost var ns1, d1, h1 := graph.nodeSeq, graph.data, store.heap;
      ok, t := FromAlias(baseName, names[k], owner);
      ResolvesMono(h1, store.heap, owner);
      assert names[k..][0] == names[k] && names[k..][1..] == names[k + 1..];
      if ok {
        FromStep(ns0, d0, ns1, d1, graph.nodeSeq, currentModule.value, owner, imported, t);
      }
    }

    /**
     * One alias of `visit_ImportFrom` after its full name is built: resolved,
     * added and imported by the current module, then linked FROM to the base
     * unless it is the base.
     */
    method FromAlias(baseName: string, alias: string, owner: Node) returns (ok: bool, t: Node)
      requires Valid() && currentModule.Some?
      requires Resolves(store.heap, owner) && (owner.ModuleNode? || owner.ClassNode?)
      modifies graph, store
      ensures Valid() && ScopesOnly(old(store.heap), store.heap)
      ensures forall n | n in old(graph.nodeSeq) :: n in graph.nodeSeq
      ensures !ok ==> graph.data == old(graph.data)
      ensures ok ==> t.ModuleNode? || t.ClassNode?
      ensures ok ==> graph.data == FromUpdate(old(graph.data), currentModule.value, owner, t)
      ensures ok ==> ImportedOf(old(Snap()), FullName(baseName, alias), alias, owner).0 == Success(t)
      ensures Outcome(ok, Snap()) == FromAliasOf(old(Snap()), currentModule.value, owner, baseName, alias)
    {
      ghost var S0 := Snap();
      var r := ResolveImported(FullName(baseName, alias), alias, owner);
      assert Snap() == S0.(heap := store.heap);
      if r.Failure? {
        return false, owner;
      }
      t := r.value;
      ImportAndLink(t, owner);
      ok := true;
    }

    /** The edges of one resolved alias `t` of `visit_ImportFrom` with base `owner`. */
    method ImportAndLink(t: Node, owner: Node)
      requires Valid() && currentModule.Some? && Resolves(store.heap, t) && Resolves(store.heap, owner)
      modifies graph
      ensures Valid()
      ensures forall n | n in old(graph.nodeSeq) :: n in graph.nodeSeq
      ensures graph.data == FromUpdate(old(graph.data), currentModule.value, owner, t)
      ensures Snap() == (var s1 := WithImport(old(Snap()), currentModule.value, t);
                         if owner != t then WithEdge(s1, t, owner, From) else s1)
    {
      AddImportEdge(t);
      if owner != t {
        Link(t, owner, From);
      }
    }

    /**
     * One alias of `visit_ImportFrom`: when the import-path finder gives a
     * module or a file for the full name, that name is resolved as a module;
     * otherwise the alias is resolved as a class owned by the base.
     */
    method ResolveImported(fullName: string, alias: string, owner: Node) returns (r: Result<Node>)
      requires Valid() && Resolves(store.heap, owner) && (owner.ModuleNode? || owner.ClassNode?)
      modifies store
      ensures Valid() && ScopesOnly(old(store.heap), store.heap)
      ensures r.Success? ==> Resolves(store.heap, r.value) && (r.value.ModuleNode? || r.value.ClassNode?)
      ensures (r, store.heap) == ImportedOf(old(Snap()), fullName, alias, owner)
    {
      var found := FindNodeByImportLike(store.heap, root, graph.nodeSeq, fullName);
      if found.Some? && (found.value.ModuleNode? || found.value.FileNode?) {
        r := ResolveModule(fullName);
      } else {
        r := ResolveClass(alias, owner);
      }
    }

    /**
     * `visit_ClassDef`: a new class record owned by the current module, with
     * its scope and the kind the class-kind rules give; it becomes the
     * current class and gets a DEFINES edge from the module, and an INHERIT
     * edge to each bare-name base, resolved as a class owned by the module.
     * The nested statements are visited by the caller.
     */
    method DefineClass(name: string, bases: seq<Expr>, decorators: seq<Expr>) returns (ok: bool, cn: Node, ghost baseNodes: seq<Node>)
      requires Valid() && currentModule.Some?
      modifies this, graph, store
      ensures Valid() && ScopesOnly(old(store.heap), store.heap)
      ensures Grown(old(graph.nodeSeq), old(graph.data), graph.nodeSeq, graph.data)
      ensures currentModule == old(currentModule) && currentClass == Some(cn)
      ensures var h := old(store.heap); var m := currentModule.value;
        && cn == ClassNode(|h.classes|)
        && store.heap.classes[cn.cref].(scope := h.modules[m.mref].scope)
             == ClassRecord(name, m, h.modules[m.mref].scope, bases, decorators)
      ensures (currentModule.value, cn) !in old(graph.data)
      ensures graph.HasEdge(currentModule.value, cn) && graph.data[(currentModule.value, cn)] == Some(Defines)
      ensures ok ==> |baseNodes| == |BaseNames(bases)|
      ensures forall i | 0 <= i < |baseNodes| :: graph.HasEdge(cn, baseNodes[i]) && graph.data[(cn, baseNodes[i])] == Some(Inherit)
      ensures forall e | e in graph.data && !(e in old(graph.data) && graph.data[e] == old(graph.data)[e]) ::
        || (e == (currentModule.value, cn) && graph.data[e] == Some(Defines))
        || (e.0 == cn && e.1 in baseNodes && graph.data[e] == Some(Inherit))
      ensures Outcome(ok, Snap()) == DefineClassOf(old(Snap()), currentModule.value, name, bases, decorators)
    {
      var m := currentModule.value;
      ghost var ns0, d0, h0 := graph.nodeSeq, graph.data, store.heap;
      ghost var S0 := Snap();
      cn := OpenClass(name, bases, decorators);
      ghost var h1, ns1, d1 := store.heap, graph.nodeSeq, graph.data;
      ghost var S1 := Snap();
      ok, baseNodes := InheritAll(cn, BaseNames(bases));
      ScopesOnlyTrans(h0, h1, store.heap);
      assert Outcome(ok, Snap()) == DefineClassOf(S0, m, name, bases, decorators) by {
        assert S1 == OpenClassOf(S0, m, name, bases, decorators);
        assert Outcome(ok, Snap()) == InheritsOf(S1, cn, m, BaseNames(bases));
      }
      assert store.heap.classes[cn.cref].(scope := h1.classes[cn.cref].scope) == h1.classes[cn.cref];
      DefinedThenInherited(ns0, d0, ns1, d1, graph.nodeSeq, graph.data, m, cn, baseNodes);
    }

    /** The first half of `visit_ClassDef`: the class record is stored, becomes the current class and is linked DEFINES from the module. */
    method OpenClass(name: string, bases: seq<Expr>, decorators: seq<Expr>) returns (cn: Node)
      requires Valid() && currentModule.Some?
      modifies this, graph, store
      ensures Valid() && ScopesOnly(old(store.heap), store.heap)
      ensures currentModule == old(currentModule) && currentClass == Some(cn)
      ensures var h := old(store.heap); var m := currentModule.value;
        && cn == ClassNode(|h.classes|)
        && store.heap == h.(classes := h.classes + [ClassRecord(name, m, h.modules[m.mref].scope, bases, decorators)])
      ensures (currentModule.value, cn) !in old(graph.data)
      ensures forall n | n in old(graph.nodeSeq) :: n in graph.nodeSeq
      ensures graph.data == old(graph.data)[(currentModule.value, cn) := Some(Defines)]
      ensures Snap() == OpenClassOf(old(Snap()), currentModule.value, name, bases, decorators)
    {
      var m := currentModule.value;
      var rec := ClassRecord(name, m, store.heap.modules[m.mref].scope, bases, decorators);
      cn := store.AddClass(rec);
      assert cn !in graph.nodeSeq;
      currentClass := Some(cn);
      Link(m, cn, Defines);
    }

    /** The base loop of `visit_ClassDef`: each base name resolved as a class owned by the current module, linked INHERIT from `cn`. */
    method InheritAll(cn: Node, names: seq<string>) returns (ok: bool, ghost ts: seq<Node>)
      requires Valid() && currentModule.Some? && cn.ClassNode? && Resolves(store.heap, cn)
      modifies graph, store
      ensures Valid() && ScopesOnly(old(store.heap), store.heap)
      ensures Grown(old(graph.nodeSeq), old(graph.data), graph.nodeSeq, graph.data)
      ensures ok ==> |ts| == |names|
      ensures InheritEdges(old(graph.data), graph.data, cn, ts)
      ensures Outcome(ok, Snap()) == InheritsOf(old(Snap()), cn, currentModule.value, names)
    {
      ghost var ns0, d0, h0 := graph.nodeSeq, graph.data, store.heap;
      ghost var whole := InheritsOf(Snap(), cn, currentModule.value, names);
      ts := [];
      var k := 0;
      while k < |names|
        invariant 0 <= k <= |names| && |ts| == k
        invariant Valid() && currentModule == old(currentModule) && ScopesOnly(h0, store.heap)
        invariant Resolves(store.heap, cn)
        invariant Grown(ns0, d0, graph.nodeSeq, graph.data)
        invariant InheritEdges(d0, graph.data, cn, ts)
        invariant whole == InheritsOf(Snap(), cn, currentModule.value, names[k..])
      {
        ghost var h1 := store.heap;
        var t;
        ok, t := InheritNext(names, k, cn, ns0, d0, ts);
        ScopesOnlyTrans(h0, h1, store.heap);
        if !ok {
          return false, ts;
        }
        ts := ts + [t];
        k := k + 1;
      }
      assert names[k..] == [];
      ok := true;
    }

    /** One turn of the base loop of `visit_ClassDef`, with the bases after `names[k]` still to come. */
    method InheritNext(names: seq<string>, k: nat, cn: Node,
                       ghost ns0: seq<Node>, ghost d0: map<(Node, Node), Option<Relation>>, ghost ts: seq<Node>)
      returns (ok: bool, t: Node)
      requires Valid() && currentModule.Some? && k < |names| && cn.ClassNode? && Resolves(store.heap, cn)
      requires Grown(ns0, d0, graph.nodeSeq, graph.data) && InheritEdges(d0, graph.data, cn, ts)
      modifies graph, store
      ensures Valid() && ScopesOnly(old(store.heap), store.heap) && Resolves(store.heap, cn)
      ensures Grown(ns0, d0, graph.nodeSeq, graph.data)
      ensures InheritEdges(d0, graph.data, cn, if ok then ts + [t] else ts)
      ensures InheritsOf(old(Snap()), cn, currentModule.value, names[k..])
              == if ok then InheritsOf(Snap(), cn, currentModule.value, names[k + 1..]) else Outcome(false, Snap())
    {
      ghost var ns1, d1, h1 := graph.nodeSeq, graph.data, store.heap;
      ok, t := InheritBase(names[k], cn);
      ResolvesMono(h1, store.heap, cn);
      assert names[k..][0] == names[k] && names[k..][1..] == names[k + 1..];
      if ok {
        InheritStep(ns0, d0, ns1, d1, graph.nodeSeq, cn, ts, t);
      }
    }

    /** One base of `visit_ClassDef`: `_resolve_class(base, module)` and the INHERIT edge to it. */
    method InheritBase(name: string, cn: Node) returns (ok: bool, t: Node)
      requires Valid() && currentModule.Some? && Resolves(store.heap, cn)
      modifies graph, store
      ensures Valid() && ScopesOnly(old(store.heap), store.heap)
      ensures forall n | n in old(graph.nodeSeq) :: n in graph.nodeSeq
      ensures !ok ==> graph.data == old(graph.data)
      ensures ok ==> graph.data == old(graph.data)[(cn, t) := Some(Inherit)]
      ensures ok ==> ClassOf(old(Snap()), name, currentModule.value).0 == Success(t)
      ensures Outcome(ok, Snap()) == InheritBaseOf(old(Snap()), cn, currentModule.value, name)
    {
      var r := ResolveClass(name, currentModule.value);
      if r.Failure? {
        return false, cn;
      }
      t := r.value;
      ResolvesMono(old(store.heap), store.heap, cn);
      Link(cn, t, Inherit);
      ok := true;
    }

    /**
     * `analyze(tree, module)`: the module becomes the current module and the
     * statements are visited in order; a visit that raises ends the analysis.
     */
    method Analyze(tree: seq<Stmt>, m: Node) returns (ok: bool)
      requires Valid() && m.ModuleNode? && Resolves(store.heap, m)
      modifies this, graph, store
      ensures Valid() && ScopesOnly(old(store.heap), store.heap)
      ensures Grown(old(graph.nodeSeq), old(graph.data), graph.nodeSeq, graph.data)
      ensures currentModule == Some(m)
      ensures Outcome(ok, Snap()) == VisitOf(old(Snap()), m, tree)
    {
      currentModule := Some(m);
      ok := Visit(tree);
    }

    /**
     * The visit of a statement list: imports and class definitions by their
     * visitors, the body of a class definition or of any other compound
     * statement visited after it; `global` statements add nothing.
     */
    method Visit(stmts: seq<Stmt>) returns (ok: bool)
      requires Valid() && currentModule.Some?
      modifies this, graph, store
      ensures Valid() && ScopesOnly(old(store.heap), store.heap)
      ensures Grown(old(graph.nodeSeq), old(graph.data), graph.nodeSeq, graph.data)
      ensures currentModule == old(currentModule)
      ensures Outcome(ok, Snap()) == VisitOf(old(Snap()), currentModule.value, stmts)
      decreases stmts
    {
      ghost var ns0, d0, h0 := graph.nodeSeq, graph.data, store.heap;
      var src := currentModule.value;
      ghost var whole := VisitOf(Snap(), src, stmts);
      ok := true;
      var k := 0;
      while k < |stmts|
        invariant 0 <= k <= |stmts|
        invariant Valid() && currentModule == old(currentModule) && ScopesOnly(h0, store.heap)
        invariant Grown(ns0, d0, graph.nodeSeq, graph.data)
        invariant whole == VisitOf(Snap(), src, stmts[k..])
      {
        ghost var ns1, d1, h1 := graph.nodeSeq, graph.data, store.heap;
        ghost var S1 := Snap();
        assert stmts[k] in stmts;
        ok := VisitStmt(stmts[k]);
        ScopesOnlyTrans(h0, h1, store.heap);
        GrownTrans(ns0, d0, ns1, d1, graph.nodeSeq, graph.data);
        VisitOfStep(S1, src, stmts, k);
        if !ok {
          return;
        }
        k := k + 1;
      }
      assert stmts[k..] == [];
    }

    /** The visit of one statement. */
    method VisitStmt(s: Stmt) returns (ok: bool)
      requires Valid() && currentModule.Some?
      modifies this, graph, store
      ensures Valid() && ScopesOnly(old(store.heap), store.heap)
      ensures Grown(old(graph.nodeSeq), old(graph.data), graph.nodeSeq, graph.data)
      ensures currentModule == old(currentModule)
      ensures Outcome(ok, Snap()) == StmtOf(old(Snap()), currentModule.value, s)
      decreases s
    {
      ok := true;
      match s {
        case Import(names) =>
          ghost var imported;
          ok, imported := VisitImport(names);
        case ImportFrom(base, names) =>
          ghost var baseNode, imported;
          ok, baseNode, imported := VisitImportFrom(base, names);
        case ClassDef(name, bases, decorators, body) =>
          ghost var ns1, d1, h1 := graph.nodeSeq, graph.data, store.heap;
          ghost var S1 := Snap();
          var cn;
          ghost var baseNodes;
          ok, cn, baseNodes := DefineClass(name, bases, decorators);
          if ok {
            ghost var ns2, d2, h2 := graph.nodeSeq, graph.data, store.heap;
            ghost var S2 := Snap();
            ok := Visit(body);
            ScopesOnlyTrans(h1, h2, store.heap);
            GrownTrans(ns1, d1, ns2, d2, graph.nodeSeq, graph.data);
            assert Outcome(ok, Snap()) == StmtOf(S1, currentModule.value, s) by {
              assert Outcome(true, S2) == DefineClassOf(S1, currentModule.value, name, bases, decorators);
              assert Outcome(ok, Snap()) == VisitOf(S2, currentModule.value, body);
            }
          }
        case Global(_) =>
        case Block(body) =>
          ok := Visit(body);
      }
    }
  }

  // ---------------------------------------------------------------------
  // The global-name collector.

  /** The one key `GlobalVisitor` fills. */
  const GlobalKey: string := "global_vars"

  /** The names of the `global` statements met by a visit of `stmts`, in visiting order. */
  function GlobalNames(stmts: seq<Stmt>): seq<string>
    decreases stmts
  {
    if stmts == [] then []
    else
      assert stmts[0] in stmts;
      var head := match stmts[0]
        case Global(names) => names
        case ClassDef(_, _, _, body) => GlobalNames(body)
        case Block(body) => GlobalNames(body)
        case _ => [];
      head + GlobalNames(stmts[1..])
  }

  /** Whether a visit of `stmts` meets a `global` statement at all. */
  predicate HasGlobal(stmts: seq<Stmt>)
    decreases stmts
  {
    if stmts == [] then false
    else
      assert stmts[0] in stmts;
      var head := match stmts[0]
        case Global(_) => true
        case ClassDef(_, _, _, body) => HasGlobal(body)
        case Block(body) => HasGlobal(body)
        case _ => false;
      head || HasGlobal(stmts[1..])
  }

  /** `setdefault("global_vars", []).extend(names)`. */
  function Extend(m: map<string, seq<string>>, names: seq<string>): (r: map<string, seq<string>>)
    ensures GlobalKey in r && r[GlobalKey] == (if GlobalKey in m then m[GlobalKey] else []) + names
    ensures forall k | k != GlobalKey :: (k in r <==> k in m) && (k in m ==> r[k] == m[k])
  {
    m[GlobalKey := (if GlobalKey in m then m[GlobalKey] else []) + names]
  }

  /**
   * The map a visit of `stmts` leaves: the names of every `global` statement
   * appended, in order, under the one key, which exists as soon as one such
   * statement was met; no other key is touched.
   */
  function AddGlobals(m: map<string, seq<string>>, stmts: seq<Stmt>): (r: map<string, seq<string>>)
    ensures GlobalKey in r <==> GlobalKey in m || HasGlobal(stmts)
    ensures GlobalKey in r ==> r[GlobalKey] == (if GlobalKey in m then m[GlobalKey] else []) + GlobalNames(stmts)
    ensures forall k | k != GlobalKey :: (k in r <==> k in m) && (k in m ==> r[k] == m[k])
  {
    NoGlobalNoNames(stmts);
    if HasGlobal(stmts) then Extend(m, GlobalNames(stmts)) else m
  }

  /** A visit without `global` statements collects no names. */
  lemma {:induction false} NoGlobalNoNames(stmts: seq<Stmt>)
    ensures !HasGlobal(stmts) ==> GlobalNames(stmts) == []
    decreases stmts
  {
    if stmts != [] {
      assert stmts[0] in stmts;
      NoGlobalNoNames(stmts[1..]);
      match stmts[0]
      case ClassDef(_, _, _, body) => NoGlobalNoNames(body);
      case Block(body) => NoGlobalNoNames(body);
      case _ =>
    }
  }

  /** Visiting two statement lists one after the other collects the names of each, in order. */
  lemma {:induction false} GlobalsAppend(a: seq<Stmt>, b: seq<Stmt>)
    ensures GlobalNames(a + b) == GlobalNames(a) + GlobalNames(b)
    ensures HasGlobal(a + b) == (HasGlobal(a) || HasGlobal(b))
  {
    if a != [] {
      GlobalsAppend(a[1..], b);
      assert (a + b)[0] == a[0] && (a + b)[1..] == a[1..] + b;
    } else {
      assert a + b == b;
    }
  }

  /** Visiting `a` and then `b` leaves the map that visiting `a + b` leaves. */
  lemma AddGlobalsCompose(m: map<string, seq<string>>, a: seq<Stmt>, b: seq<Stmt>)
    ensures AddGlobals(AddGlobals(m, a), b) == AddGlobals(m, a + b)
  {
    GlobalsAppend(a, b);
    NoGlobalNoNames(a);
    NoGlobalNoNames(b);
    var ga, gb := GlobalNames(a), GlobalNames(b);
    if HasGlobal(a) && HasGlobal(b) {
      ExtendTwice(m, ga, gb);
    } else if HasGlobal(a) {
      assert ga + gb == ga;
    } else if HasGlobal(b) {
      assert ga + gb == gb;
    }
  }

  /** Extending twice is extending once by both lists. */
  lemma ExtendTwice(m: map<string, seq<string>>, x: seq<string>, y: seq<string>)
    ensures Extend(Extend(m, x), y) == Extend(m, x + y)
  {
    var base := if GlobalKey in m then m[GlobalKey] else [];
    assert base + x + y == base + (x + y);
  }

  /** `GlobalVisitor`: collects the names of `global` statements under one key. */
  class GlobalVisitor {
    var currentModule: Option<Node>
    var globalsMap: map<string, seq<string>>

    constructor ()
      ensures currentModule == None && globalsMap == map[]
    {
      currentModule := None;
      globalsMap := map[];
    }

    /** `analyze(tree, module)`. */
    method Analyze(tree: seq<Stmt>, m: Node)
      modifies this
      ensures currentModule == Some(m)
      ensures globalsMap == AddGlobals(old(globalsMap), tree)
    {
      currentModule := Some(m);
      Visit(tree);
    }

    /** The visit of a statement list: `visit_Global` extends the list, every other statement is visited into. */
    method Visit(stmts: seq<Stmt>)
      modifies this
      ensures currentModule == old(currentModule)
      ensures globalsMap == AddGlobals(old(globalsMap), stmts)
      decreases stmts
    {
      ghost var m0 := globalsMap;
      var k := 0;
      while k < |stmts|
        invariant 0 <= k <= |stmts| && currentModule == old(currentModule)
        invariant globalsMap == AddGlobals(m0, stmts[..k])
      {
        var s := stmts[k];
        assert s in stmts;
        ghost var m1 := globalsMap;
        assert [s][1..] == [];
        match s {
          case Global(names) =>
            globalsMap := Extend(globalsMap, names);
            assert GlobalNames([s]) == names + [] && HasGlobal([s]);
            assert names + [] == names;
            assert globalsMap == AddGlobals(m1, [s]);
          case ClassDef(_, _, _, body) =>
            Visit(body);
            assert GlobalNames([s]) == GlobalNames(body) + [] && HasGlobal([s]) == HasGlobal(body);
            assert GlobalNames(body) + [] == GlobalNames(body);
            assert globalsMap == AddGlobals(m1, [s]);
          case Block(body) =>
            Visit(body);
            assert GlobalNames([s]) == GlobalNames(body) + [] && HasGlobal([s]) == HasGlobal(body);
            assert GlobalNames(body) + [] == GlobalNames(body);
            assert globalsMap == AddGlobals(m1, [s]);
          case _ =>
            assert !HasGlobal([s]);
        }
        assert globalsMap == AddGlobals(m1, [s]);
        AddGlobalsCompose(m0, stmts[..k], [s]);
        assert stmts[..k + 1] == stmts[..k] + [s];
        k := k + 1;
      }
      assert stmts[..k] == stmts;
    }
  }

  // ---------------------------------------------------------------------
  // The pipeline.

  /** One analyzer the pipeline runs (the structure analyzer or the global-name collector). */
  datatype Analyzer = Structure(s: StructureAnalyzer) | Globals(g: GlobalVisitor)
  {
    function Obj(): object {
      match this
      case Structure(s) => s
      case Globals(g) => g
    }
  }

  /** The map `n` visits of `tree` by one global-name collector leave. */
  function Repeated(m: map<string, seq<string>>, tree: seq<Stmt>, n: nat): (r: map<string, seq<string>>)
    ensures n == 0 ==> r == m
    ensures Grows(m, r)
  {
    if n == 0 then m
    else
      var p := Repeated(m, tree, n - 1);
      GrowsTrans(m, p, AddGlobals(p, tree));
      AddGlobals(p, tree)
  }

  /**
   * A collector's map only grows from `m` to `r`: the names already under the
   * one key stay first in its list, and no other key is added, removed or changed.
   */
  ghost predicate Grows(m: map<string, seq<string>>, r: map<string, seq<string>>) {
    && (forall k | k != GlobalKey :: (k in r <==> k in m) && (k in m ==> r[k] == m[k]))
    && (GlobalKey in m ==> GlobalKey in r && m[GlobalKey] <= r[GlobalKey])
  }

  /** Growth composes. */
  lemma GrowsTrans(a: map<string, seq<string>>, b: map<string, seq<string>>, c: map<string, seq<string>>)
    requires Grows(a, b) && Grows(b, c)
    ensures Grows(a, c)
  {
    if GlobalKey in a {
      assert a[GlobalKey] == b[GlobalKey][..|a[GlobalKey]|] == c[GlobalKey][..|b[GlobalKey]|][..|a[GlobalKey]|];
    }
  }

  /** Every collector's map grows from `maps` to `r`, and the collectors are the same. */
  ghost predicate AllGrow(maps: map<Analyzer, map<string, seq<string>>>, r: map<Analyzer, map<string, seq<string>>>) {
    r.Keys == maps.Keys && forall a | a in maps :: Grows(maps[a], r[a])
  }

  /** Growth of all the collectors' maps composes. */
  lemma {:induction false} AllGrowTrans(a: map<Analyzer, map<string, seq<string>>>, b: map<Analyzer, map<string, seq<string>>>, c: map<Analyzer, map<string, seq<string>>>)
    requires AllGrow(a, b) && AllGrow(b, c)
    ensures AllGrow(a, c)
  {
    forall x | x in a
      ensures Grows(a[x], c[x])
    {
      GrowsTrans(a[x], b[x], c[x]);
    }
  }

  /**
   * The collectors' maps `maps` after a run that stopped after `ran` of the
   * analyzers `rs` on `tree`: each collector visited it once per time it
   * occurs among them, so every map only grew.
   */
  ghost function RunMaps(maps: map<Analyzer, map<string, seq<string>>>, rs: seq<Analyzer>, ran: nat, tree: seq<Stmt>): (r: map<Analyzer, map<string, seq<string>>>)
    requires ran <= |rs|
    ensures AllGrow(maps, r)
    ensures forall a | a in maps && a !in rs[..ran] :: r[a] == maps[a]
  {
    map a | a in maps :: Repeated(maps[a], tree, Occurrences(rs, ran, a))
  }

  /** The graph and the records, as the structure analyzers see them. */
  ghost function StateOf(graph: ProjectGraph, store: Store): AState
    reads graph, store
  {
    AState(store.heap, graph.nodeSeq, graph.data)
  }

  /**
   * `run(tree, module)` in state `s`, from the analyzer `rs[i]` on, up to the
   * first that raises; with the number of analyzers of `rs` that have run by
   * then. Only the structure analyzers change the graph or the records.
   */
  function RunOf(rs: seq<Analyzer>, i: nat, s: AState, m: Node, tree: seq<Stmt>): (r: (Outcome, nat))
    requires i <= |rs| && Fits(s) && m.ModuleNode? && Resolves(s.heap, m)
    ensures Fits(r.0.st) && ScopesOnly(s.heap, r.0.st.heap)
    ensures i <= r.1 <= |rs| && (r.0.ok ==> r.1 == |rs|)
    ensures !r.0.ok ==> i < r.1 && rs[r.1 - 1].Structure?
    decreases |rs| - i
  {
    if i == |rs| then (Outcome(true, s), i)
    else
      var o := match rs[i]
        case Structure(a) => a.VisitOf(s, m, tree)
        case Globals(_) => Outcome(true, s);
      ResolvesMono(s.heap, o.st.heap, m);
      if !o.ok then (o, i + 1)
      else
        var r := RunOf(rs, i + 1, o.st, m, tree);
        ScopesOnlyTrans(s.heap, o.st.heap, r.0.st.heap);
        r
  }

  /**
   * `ASTAnalyzerPipeline`: the analyzers in order, the project root and its
   * own scope classifier. Reading and parsing a file is the oracle `parse`,
   * None where opening, decoding or parsing raises.
   */
  class AnalyzerPipeline {
    const analyzers: seq<Analyzer>
    const root: Path
    const classifier: ScopeClassifier

    constructor (analyzers: seq<Analyzer>, root: Path, fileExists: Path -> bool, findPath: string -> Option<Path>)
      ensures this.analyzers == analyzers && this.root == root
      ensures classifier.root == root && classifier.fileExists == fileExists && classifier.findPath == findPath
    {
      this.analyzers := analyzers;
      this.root := root;
      this.classifier := new ScopeClassifier(root, fileExists, findPath);
    }

    /** The analyzer objects. */
    function Objs(): set<object> {
      set a | a in analyzers :: a.Obj()
    }

    /** Every structure analyzer works on `graph` and `store`, and all are consistent with them. */
    ghost predicate Ready(graph: ProjectGraph, store: Store)
      reads Objs(), graph, store
    {
      && graph.Valid()
      && AllResolve(store.heap, graph.nodeSeq)
      && forall a | a in analyzers && a.Structure? ::
           && a.Obj() == a.s
           && a.s.graph == graph && a.s.store == store && a.s.classifier.root == a.s.root
           && Cursors(store.heap, a.s.currentModule, a.s.currentClass)
    }

    /** The scope the pipeline's classifier gives the module record of file `f`. */
    function FileScope(f: FileInfo): ImportScope {
      ClassifiedScope(classifier.fileExists, classifier.findPath, classifier.root, Some(f), [f.name], Unknown)
    }

    /**
     * One file of `__call__` in state `s`: a new module record for it with
     * its classified scope, the CONTAINS edge, then the analyzers on its
     * parse; a file that cannot be read or parsed raises.
     */
    function FileOf(s: AState, f: Node, parse: FileInfo -> Option<seq<Stmt>>): (r: Outcome)
      requires Fits(s) && f.FileNode?
      ensures Fits(r.st) && ScopesOnly(s.heap, r.st.heap)
    {
      var s1 := Opened(s, f);
      match parse(f.file)
      case None => Outcome(false, s1)
      case Some(tree) =>
        var r := RunOf(analyzers, 0, s1, ModuleNode(|s.heap.modules|), tree).0;
        ScopesOnlyTrans(s.heap, s1.heap, r.st.heap);
        r
    }

    /** The state after the first steps of one file of `__call__`: its new module record, classified, and the CONTAINS edge to it. */
    function Opened(s: AState, f: Node): (r: AState)
      requires Fits(s) && f.FileNode?
      ensures Fits(r) && ScopesOnly(s.heap, r.heap) && Resolves(r.heap, ModuleNode(|s.heap.modules|))
    {
      var m := ModuleNode(|s.heap.modules|);
      var h := s.heap.(modules := s.heap.modules + [FileToModule(f.file).(scope := FileScope(f.file))]);
      assert ScopesOnly(s.heap, h) && Resolves(h, m);
      AllResolveMono(s.heap, h, s.nodes);
      WithEdge(s.(heap := h), f, m, Contains)
    }

    /**
     * The collectors' maps `maps` after one file of `__call__` in state `s`:
     * unchanged when the file cannot be read or parsed, else each collector
     * visited its parse once per time it occurs among the analyzers that ran.
     */
    ghost function FileMaps(s: AState, f: Node, parse: FileInfo -> Option<seq<Stmt>>, maps: map<Analyzer, map<string, seq<string>>>)
      : (r: map<Analyzer, map<string, seq<string>>>)
      requires Fits(s) && f.FileNode?
      ensures AllGrow(maps, r)
      ensures parse(f.file).None? ==> r == maps
    {
      match parse(f.file)
      case None => maps
      case Some(tree) => RunMaps(maps, analyzers, RunOf(analyzers, 0, Opened(s, f), ModuleNode(|s.heap.modules|), tree).1, tree)
    }

    /** The collectors' maps `maps` after the loop of `__call__` over `files` in state `s`, from `files[i]` on: every map only grew. */
    ghost function FilesMaps(s: AState, files: seq<Node>, i: nat, parse: FileInfo -> Option<seq<Stmt>>, maps: map<Analyzer, map<string, seq<string>>>)
      : (r: map<Analyzer, map<string, seq<string>>>)
      requires i <= |files| && Fits(s) && forall x | x in files :: x.FileNode?
      ensures AllGrow(maps, r)
      decreases |files| - i
    {
      if i == |files| then maps
      else
        assert files[i] in files;
        var next := FileMaps(s, files[i], parse, maps);
        var o := FileOf(s, files[i], parse);
        if !o.ok then next
        else
          var r := FilesMaps(o.st, files, i + 1, parse, next);
          AllGrowTrans(maps, next, r);
          r
    }

    /** The loop of `__call__` over `files` in state `s`, from `files[i]` on, up to the first file that raises. */
    function FilesOf(s: AState, files: seq<Node>, i: nat, parse: FileInfo -> Option<seq<Stmt>>): (r: Outcome)
      requires i <= |files| && Fits(s) && forall x | x in files :: x.FileNode?
      ensures Fits(r.st) && ScopesOnly(s.heap, r.st.heap)
      decreases |files| - i
    {
      if i == |files| then Outcome(true, s)
      else
        assert files[i] in files;
        var o := FileOf(s, files[i], parse);
        if !o.ok then o
        else
          var r := FilesOf(o.st, files, i + 1, parse);
          ScopesOnlyTrans(s.heap, o.st.heap, r.st.heap);
          r
    }

    /**
     * `__call__(graph)`: for each FileInfo end of the edges, as listed before
     * the loop, a new module record named after the file and holding it, its
     * scope classified, a CONTAINS edge from the file to it, and every
     * analyzer run on the file's parse; a file that cannot be read or parsed
     * ends the run.
     */
    method Run(graph: ProjectGraph, store: Store, parse: FileInfo -> Option<seq<Stmt>>) returns (ok: bool, files: seq<Node>, ghost modules: seq<Node>)
      requires Ready(graph, store)
      modifies Objs(), graph, store
      ensures Ready(graph, store) && ScopesOnly(old(store.heap), store.heap)
      ensures files == FilterNodeByClass(old(graph.Edges()), Single(FileKind), true, KindOf)
      ensures |modules| <= |files| && (ok ==> |modules| == |files|)
      ensures Processed(graph.data, store.heap, files[..|modules|], modules)
      ensures Outcome(ok, StateOf(graph, store)) == FilesOf(old(StateOf(graph, store)), files, 0, parse)
      ensures GlobalsMaps() == FilesMaps(old(StateOf(graph, store)), files, 0, parse, old(GlobalsMaps()))
    {
      files := FilterNodeByClass(graph.Edges(), Single(FileKind), true, KindOf);
      PipelineFiles(graph.Edges());
      ok, modules := ProcessFiles(files, graph, store, parse);
    }

    /** The loop of `__call__` over the listed files, stopping at the first that fails. */
    method ProcessFiles(files: seq<Node>, graph: ProjectGraph, store: Store, parse: FileInfo -> Option<seq<Stmt>>) returns (ok: bool, ghost modules: seq<Node>)
      requires Ready(graph, store) && forall x | x in files :: x.FileNode?
      modifies Objs(), graph, store
      ensures Ready(graph, store) && ScopesOnly(old(store.heap), store.heap)
      ensures |modules| <= |files| && (ok ==> |modules| == |files|)
      ensures Processed(graph.data, store.heap, files[..|modules|], modules)
      ensures Outcome(ok, StateOf(graph, store)) == FilesOf(old(StateOf(graph, store)), files, 0, parse)
      ensures GlobalsMaps() == FilesMaps(old(StateOf(graph, store)), files, 0, parse, old(GlobalsMaps()))
    {
      ghost var h0 := store.heap;
      ghost var whole := FilesOf(StateOf(graph, store), files, 0, parse);
      ghost var wholeMaps := FilesMaps(StateOf(graph, store), files, 0, parse, GlobalsMaps());
      modules := [];
      ok := true;
      var k := 0;
      while k < |files|
        invariant 0 <= k <= |files| && |modules| == k
        invariant Ready(graph, store) && ScopesOnly(h0, store.heap)
        invariant Processed(graph.data, store.heap, files[..k], modules)
        invariant whole == FilesOf(StateOf(graph, store), files, k, parse)
        invariant wholeMaps == FilesMaps(StateOf(graph, store), files, k, parse, GlobalsMaps())
      {
        ghost var h1 := store.heap;
        var m;
        ok, m := ProcessNext(files, k, graph, store, parse, modules);
        ScopesOnlyTrans(h0, h1, store.heap);
        modules := modules + [m];
        if !ok {
          return;
        }
        k := k + 1;
      }
      assert files[k..] == [];
    }

    /** One turn of the loop of `__call__`: the file `files[k]`, with the files after it still to come. */
    method ProcessNext(files: seq<Node>, k: nat, graph: ProjectGraph, store: Store, parse: FileInfo -> Option<seq<Stmt>>, ghost modules: seq<Node>)
      returns (ok: bool, m: Node)
      requires Ready(graph, store) && k < |files| && forall x | x in files :: x.FileNode?
      requires Processed(graph.data, store.heap, files[..k], modules)
      modifies Objs(), graph, store
      ensures Ready(graph, store) && ScopesOnly(old(store.heap), store.heap)
      ensures Processed(graph.data, store.heap, files[..k + 1], modules + [m])
      ensures FilesOf(old(StateOf(graph, store)), files, k, parse)
              == if ok then FilesOf(StateOf(graph, store), files, k + 1, parse) else Outcome(false, StateOf(graph, store))
      ensures FilesMaps(old(StateOf(graph, store)), files, k, parse, old(GlobalsMaps()))
              == if ok then FilesMaps(StateOf(graph, store), files, k + 1, parse, GlobalsMaps()) else GlobalsMaps()
    {
      ghost var h1, d1, S0, M0 := store.heap, graph.data, StateOf(graph, store), GlobalsMaps();
      assert files[k] in files;
      ok, m := ProcessFile(files[k], graph, store, parse);
      ProcessedStep(d1, h1, graph.data, store.heap, files, k, modules, m);
      FilesMapsStep(S0, files, k, parse, M0);
    }

    /** The maps of the file loop from `files[k]` on: those after `files[k]`, then, unless it failed, the loop from `files[k + 1]` on. */
    lemma FilesMapsStep(s: AState, files: seq<Node>, k: nat, parse: FileInfo -> Option<seq<Stmt>>, maps: map<Analyzer, map<string, seq<string>>>)
      requires k < |files| && Fits(s) && forall x | x in files :: x.FileNode?
      ensures files[k] in files
      ensures FilesMaps(s, files, k, parse, maps)
              == if FileOf(s, files[k], parse).ok then FilesMaps(FileOf(s, files[k], parse).st, files, k + 1, parse, FileMaps(s, files[k], parse, maps))
                 else FileMaps(s, files[k], parse, maps)
    {
    }

    /** One file of `__call__`. */
    method ProcessFile(f: Node, graph: ProjectGraph, store: Store, parse: FileInfo -> Option<seq<Stmt>>) returns (ok: bool, m: Node)
      requires Ready(graph, store) && f.FileNode?
      modifies Objs(), graph, store
      ensures Ready(graph, store) && ScopesOnly(old(store.heap), store.heap)
      ensures m == ModuleNode(|old(store.heap).modules|) && Resolves(store.heap, m)
      ensures ScopesOnly(old(store.heap).(modules := old(store.heap).modules + [FileToModule(f.file).(scope := FileScope(f.file))]), store.heap)
      ensures (f, m) in graph.data && graph.data[(f, m)] == Some(Contains)
      ensures forall e | e in old(graph.data) && e.0.FileNode? :: e in graph.data && graph.data[e] == old(graph.data)[e]
      ensures Outcome(ok, StateOf(graph, store)) == FileOf(old(StateOf(graph, store)), f, parse)
      ensures GlobalsMaps() == FileMaps(old(StateOf(graph, store)), f, parse, old(GlobalsMaps()))
    {
      ghost var S0, M0 := StateOf(graph, store), GlobalsMaps();
      m := NewFileModule(f.file, graph, store);
      LinkModule(f, m, graph, store);
      ghost var S1 := StateOf(graph, store);
      assert S1 == Opened(S0, f) && GlobalsMaps() == M0;
      var tree := parse(f.file);
      if tree.None? {
        return false, m;
      }
      ghost var ns1, d1 := graph.nodeSeq, graph.data;
      ghost var ran;
      ok, ran := RunAnalyzers(tree.value, m, graph, store);
      FileEdgesKept(ns1, d1, graph.nodeSeq, graph.data);
      assert GlobalsMaps() == RunMaps(M0, analyzers, RunOf(analyzers, 0, S1, m, tree.value).1, tree.value);
    }

    /** `graph.add_edge(file, module, CONTAINS)` for a module record not yet in the graph. */
    method LinkModule(f: Node, m: Node, graph: ProjectGraph, store: Store)
      requires Ready(graph, store) && f.FileNode? && m.ModuleNode? && Resolves(store.heap, m) && m !in graph.nodeSeq
      modifies graph
      ensures Ready(graph, store)
      ensures (f, m) in graph.data && graph.data[(f, m)] == Some(Contains)
      ensures forall e | e in old(graph.data) :: e in graph.data && graph.data[e] == old(graph.data)[e]
      ensures StateOf(graph, store) == WithEdge(old(StateOf(graph, store)), f, m, Contains)
      ensures GlobalsMaps() == old(GlobalsMaps())
    {
      assert (f, m) !in graph.data;
      graph.AddEdge(f, m, Some(Contains));
    }

    /** `to_module(file)` and the classification of its scope by the file's name. */
    method NewFileModule(f: FileInfo, graph: ProjectGraph, store: Store) returns (m: Node)
      requires Ready(graph, store)
      modifies store
      ensures Ready(graph, store) && ScopesOnly(old(store.heap), store.heap)
      ensures m == ModuleNode(|old(store.heap).modules|) && Resolves(store.heap, m) && m !in graph.nodeSeq
      ensures store.heap == old(store.heap).(modules := old(store.heap).modules + [FileToModule(f).(scope := FileScope(f))])
      ensures GlobalsMaps() == old(GlobalsMaps())
    {
      FreshModuleAbsent(store.heap, graph.nodeSeq);
      ghost var h0 := store.heap;
      m := store.AddModule(FileToModule(f));
      classifier.Classify([f.name], store, m);
      assert (h0.modules + [FileToModule(f)])[|h0.modules| := FileToModule(f).(scope := FileScope(f))]
        == h0.modules + [FileToModule(f).(scope := FileScope(f))];
    }

    /** `run(tree, module)`: every analyzer, in order, analyzes the module. */
    method RunAnalyzers(tree: seq<Stmt>, m: Node, graph: ProjectGraph, store: Store) returns (ok: bool, ghost ran: nat)
      requires Ready(graph, store) && m.ModuleNode? && Resolves(store.heap, m)
      modifies Objs(), graph, store
      ensures Ready(graph, store) && ScopesOnly(old(store.heap), store.heap)
      ensures Grown(old(graph.nodeSeq), old(graph.data), graph.nodeSeq, graph.data)
      ensures (Outcome(ok, StateOf(graph, store)), ran) == RunOf(analyzers, 0, old(StateOf(graph, store)), m, tree)
      ensures ran <= |analyzers|
      ensures GlobalsMaps() == RunMaps(old(GlobalsMaps()), analyzers, ran, tree)
    {
      ghost var ns0, d0, h0 := graph.nodeSeq, graph.data, store.heap;
      ghost var whole := RunOf(analyzers, 0, StateOf(graph, store), m, tree);
      ghost var maps0 := GlobalsMaps();
      ok := true;
      var k := 0;
      while k < |analyzers|
        invariant 0 <= k <= |analyzers|
        invariant Ready(graph, store) && ScopesOnly(h0, store.heap) && Resolves(store.heap, m)
        invariant Grown(ns0, d0, graph.nodeSeq, graph.data)
        invariant whole == RunOf(analyzers, k, StateOf(graph, store), m, tree)
        invariant GlobalsAfter(maps0, tree, k)
      {
        ghost var ns1, d1, h1 := graph.nodeSeq, graph.data, store.heap;
        ok := RunNext(tree, m, k, graph, store, maps0);
        ScopesOnlyTrans(h0, h1, store.heap);
        GrownTrans(ns0, d0, ns1, d1, graph.nodeSeq, graph.data);
        if !ok {
          RunMapsAfter(GlobalsMaps(), maps0, tree, analyzers, k + 1);
          return false, k + 1;
        }
        k := k + 1;
      }
      ran := k;
      RunMapsAfter(GlobalsMaps(), maps0, tree, analyzers, k);
    }

    /** The map of every global-name collector among the analyzers. */
    ghost function GlobalsMaps(): (r: map<Analyzer, map<string, seq<string>>>)
      reads set a | a in analyzers && a.Globals? :: a.g
      ensures forall a | a in analyzers && a.Globals? :: a in r && r[a] == a.g.globalsMap
      ensures forall a | a in r :: a in analyzers && a.Globals?
    {
      map a | a in analyzers && a.Globals? :: a.g.globalsMap
    }

    /** Each global-name collector has visited the tree once for each time it occurs in `ran`, starting from its map in `maps0`. */
    ghost predicate GlobalsAfter(maps0: map<Analyzer, map<string, seq<string>>>, tree: seq<Stmt>, k: nat)
      requires k <= |analyzers|
      reads Objs()
    {
      MapsAfter(GlobalsMaps(), maps0, tree, analyzers, k)
    }

    /** One analyzer of `run`: `analyzers[k]` analyzes the module, with the analyzers after it still to come. */
    method RunNext(tree: seq<Stmt>, m: Node, k: nat, graph: ProjectGraph, store: Store, ghost maps0: map<Analyzer, map<string, seq<string>>>) returns (ok: bool)
      requires Ready(graph, store) && m.ModuleNode? && Resolves(store.heap, m) && k < |analyzers|
      requires GlobalsAfter(maps0, tree, k)
      modifies Objs(), graph, store
      ensures GlobalsAfter(maps0, tree, k + 1)
      ensures Ready(graph, store) && ScopesOnly(old(store.heap), store.heap) && Resolves(store.heap, m)
      ensures Grown(old(graph.nodeSeq), old(graph.data), graph.nodeSeq, graph.data)
      ensures RunOf(analyzers, k, old(StateOf(graph, store)), m, tree)
              == if ok then RunOf(analyzers, k + 1, StateOf(graph, store), m, tree) else (Outcome(false, StateOf(graph, store)), k + 1)
    {
      assert analyzers[k] in analyzers;
      ghost var pre := GlobalsMaps();
      match analyzers[k] {
        case Structure(s) =>
          ok := RunStructure(s, tree, m, k, graph, store);
        case Globals(g) =>
          RunCollector(g, tree, m, k, graph, store);
          CollectorStep(analyzers, k, StateOf(graph, store), m, tree);
          ok := true;
      }
      MapsStep(pre, GlobalsMaps(), maps0, tree, analyzers, k);
    }

    /** A structure analyzer of `run`: it analyzes the module and no collector changes. */
    method RunStructure(s: StructureAnalyzer, tree: seq<Stmt>, m: Node, k: nat, graph: ProjectGraph, store: Store) returns (ok: bool)
      requires Ready(graph, store) && m.ModuleNode? && Resolves(store.heap, m) && k < |analyzers| && analyzers[k] == Structure(s)
      modifies Objs(), graph, store
      ensures Ready(graph, store) && ScopesOnly(old(store.heap), store.heap) && Resolves(store.heap, m)
      ensures Grown(old(graph.nodeSeq), old(graph.data), graph.nodeSeq, graph.data)
      ensures RunOf(analyzers, k, old(StateOf(graph, store)), m, tree)
              == if ok then RunOf(analyzers, k + 1, StateOf(graph, store), m, tree) else (Outcome(false, StateOf(graph, store)), k + 1)
      ensures GlobalsMaps() == old(GlobalsMaps())
    {
      assert analyzers[k] in analyzers;
      ok := s.Analyze(tree, m);
      ResolvesMono(old(store.heap), store.heap, m);
    }

    /** A global-name collector of `run`: only its own map takes one more visit. */
    method RunCollector(g: GlobalVisitor, tree: seq<Stmt>, m: Node, k: nat, graph: ProjectGraph, store: Store)
      requires Ready(graph, store) && m.ModuleNode? && Resolves(store.heap, m) && k < |analyzers| && analyzers[k] == Globals(g)
      modifies g
      ensures Ready(graph, store)
      ensures GlobalsMaps() == old(GlobalsMaps())[Globals(g) := AddGlobals(old(GlobalsMaps())[Globals(g)], tree)]
    {
      assert analyzers[k] in analyzers;
      g.Analyze(tree, m);
    }
  }

  /** A global-name collector leaves the records and the graph as they are for the analyzers after it. */
  lemma CollectorStep(rs: seq<Analyzer>, k: nat, s: AState, m: Node, tree: seq<Stmt>)
    requires k < |rs| && rs[k].Globals? && Fits(s) && m.ModuleNode? && Resolves(s.heap, m)
    ensures RunOf(rs, k, s, m, tree) == RunOf(rs, k + 1, s, m, tree)
  {
  }

  /** How often `a` occurs among the first `k` analyzers of `rs`. */
  function Occurrences(rs: seq<Analyzer>, k: nat, a: Analyzer): (n: nat)
    requires k <= |rs|
    ensures n <= k
    ensures a !in rs[..k] ==> n == 0
  {
    if k == 0 then 0
    else
      assert rs[..k] == rs[..k - 1] + [rs[k - 1]];
      Occurrences(rs, k - 1, a) + if rs[k - 1] == a then 1 else 0
  }

  /** One more analyzer `rs[k]` run: only its own map, if it is a collector, takes one more visit. */
  lemma MapsStep(pre: map<Analyzer, map<string, seq<string>>>, post: map<Analyzer, map<string, seq<string>>>,
                 maps0: map<Analyzer, map<string, seq<string>>>, tree: seq<Stmt>, rs: seq<Analyzer>, k: nat)
    requires k < |rs| && MapsAfter(pre, maps0, tree, rs, k)
    requires if rs[k] in pre then post == pre[rs[k] := AddGlobals(pre[rs[k]], tree)] else post == pre
    ensures MapsAfter(post, maps0, tree, rs, k + 1)
  {
    forall a | a in post
      ensures a in maps0 && post[a] == Repeated(maps0[a], tree, Occurrences(rs, k + 1, a))
    {
      assert Occurrences(rs, k + 1, a) == Occurrences(rs, k, a) + if rs[k] == a then 1 else 0;
    }
  }

  /** Maps of the same collectors, each as `run` left it after `k` analyzers, are the maps `RunMaps` gives. */
  lemma RunMapsAfter(cur: map<Analyzer, map<string, seq<string>>>, maps0: map<Analyzer, map<string, seq<string>>>, tree: seq<Stmt>, rs: seq<Analyzer>, k: nat)
    requires k <= |rs| && MapsAfter(cur, maps0, tree, rs, k)
    requires forall a :: a in cur <==> a in maps0
    ensures cur == RunMaps(maps0, rs, k, tree)
  {
  }

  /** Each collector's map in `cur` is its map in `maps0` after one visit of `tree` per occurrence of it among `rs[..k]`. */
  ghost predicate MapsAfter(cur: map<Analyzer, map<string, seq<string>>>, maps0: map<Analyzer, map<string, seq<string>>>, tree: seq<Stmt>, rs: seq<Analyzer>, k: nat)
    requires k <= |rs|
  {
    forall a | a in cur :: a in maps0 && cur[a] == Repeated(maps0[a], tree, Occurrences(rs, k, a))
  }

  /**
   * After the files `fs` were processed into the module records `ms`: each
   * file has a CONTAINS edge to its own module record, which is named after
   * it and holds it; the records are distinct, in allocation order.
   */
  ghost predicate Processed(d: map<(Node, Node), Option<Relation>>, h: Heap, fs: seq<Node>, ms: seq<Node>) {
    && |fs| == |ms|
    && (forall i | 0 <= i < |ms| ::
          && fs[i].FileNode? && ms[i].ModuleNode? && Resolves(h, ms[i])
          && (fs[i], ms[i]) in d && d[(fs[i], ms[i])] == Some(Contains)
          && h.modules[ms[i].mref].name == fs[i].file.name
          && h.modules[ms[i].mref].file == Some(fs[i].file))
    && (forall i, j | 0 <= i < j < |ms| :: ms[i].mref < ms[j].mref)
  }

  /** A module record past the end of the heap is no node of a graph whose nodes all resolve. */
  lemma FreshModuleAbsent(h: Heap, ns: seq<Node>)
    requires AllResolve(h, ns)
    ensures ModuleNode(|h.modules|) !in ns
  {
  }

  /** The analyzers only write edges leaving modules and classes: the edges leaving files keep their labels. */
  lemma FileEdgesKept(ns1: seq<Node>, d1: map<(Node, Node), Option<Relation>>, ns2: seq<Node>, d2: map<(Node, Node), Option<Relation>>)
    requires Grown(ns1, d1, ns2, d2)
    ensures forall e | e in d1 && e.0.FileNode? :: e in d2 && d2[e] == d1[e]
  {
  }

  /** One more file, `files[k]`, keeps `Processed`. */
  lemma ProcessedStep(
    d1: map<(Node, Node), Option<Relation>>, h1: Heap,
    d2: map<(Node, Node), Option<Relation>>, h2: Heap,
    files: seq<Node>, k: nat, ms: seq<Node>, m: Node)
    requires k < |files| && Processed(d1, h1, files[..k], ms) && files[k].FileNode?
    requires m == ModuleNode(|h1.modules|) && Resolves(h2, m)
    requires ScopesOnly(h1.(modules := h1.modules + [FileToModule(files[k].file).(scope := h2.modules[m.mref].scope)]), h2)
    requires (files[k], m) in d2 && d2[(files[k], m)] == Some(Contains)
    requires forall e | e in d1 && e.0.FileNode? :: e in d2 && d2[e] == d1[e]
    ensures Processed(d2, h2, files[..k + 1], ms + [m])
  {
    var fs, f := files[..k], files[k];
    assert files[..k + 1] == fs + [f];
    var ha := h1.(modules := h1.modules + [FileToModule(f.file).(scope := h2.modules[m.mref].scope)]);
    forall i | 0 <= i < |ms|
      ensures h2.modules[ms[i].mref].name == fs[i].file.name && h2.modules[ms[i].mref].file == Some(fs[i].file)
    {
      assert ha.modules[ms[i].mref] == h1.modules[ms[i].mref];
      assert h2.modules[ms[i].mref].(scope := ha.modules[ms[i].mref].scope) == ha.modules[ms[i].mref];
    }
    assert h2.modules[m.mref].(scope := ha.modules[m.mref].scope) == ha.modules[m.mref];
    var fs', ms' := fs + [f], ms + [m];
    forall i | 0 <= i < |ms'|
      ensures && fs'[i].FileNode? && ms'[i].ModuleNode? && Resolves(h2, ms'[i])
              && (fs'[i], ms'[i]) in d2 && d2[(fs'[i], ms'[i])] == Some(Contains)
              && h2.modules[ms'[i].mref].name == fs'[i].file.name
              && h2.modules[ms'[i].mref].file == Some(fs'[i].file)
    {
      if i < |ms| {
        assert fs'[i] == fs[i] && ms'[i] == ms[i];
      }
    }
  }

  /**
   * The files the pipeline visits: FileInfo nodes that are an end of some
   * edge, each as often as it is one; a FileInfo node without edges is
   * never visited.
   */
  lemma PipelineFiles(es: seq<Edge<Node, Relation>>)
    ensures var files := FilterNodeByClass(es, Single(FileKind), true, KindOf);
      && (forall x :: x in files <==> x.FileNode? && EndOf(es, x))
      && SubseqOf(files, Ends(es))
  {
    FilterNodeByClassSpec(es, Single(FileKind), true, KindOf);
  }
}
