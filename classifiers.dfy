/**
 * The two classifiers of the structure analyzer and its record builders:
 * the import-scope decision table for modules, the class-kind rules, the
 * file-to-module adapter and the record a class definition produces.
 */
module Classifiers {
  import opened Wrappers
  import opened Paths
  import opened Model
  import opened Records
  import Strings

  // ---------------------------------------------------------------------
  // Module import scope.

  /** `"lib" in str(p).lower() or "python" in str(p).lower()`. */
  predicate LibLike(p: Path) {
    var s := Strings.Lower(Str(p));
    Strings.Contains(s, "lib") || Strings.Contains(s, "python")
  }

  /**
   * The scope one name gets from the path the lookup found for it: the tests
   * are tried in order and the first that holds decides.
   */
  function ScopeOfPath(root: Path, p: Option<Path>): ImportScope {
    match p
    case None => Stdlib
    case Some(path) =>
      if IsAncestor(root, path) then Local
      else if Strings.Contains(Str(path), "site-packages") then Dependency
      else if LibLike(path) then Stdlib
      else Unknown
  }

  /**
   * The decision table, each verdict with the exact condition that yields it:
   * LOCAL under the root, DEPENDENCY in site-packages, STDLIB for no path or
   * a library-like one, never BUILTIN.
   */
  lemma ScopeOfPathSpec(root: Path, p: Option<Path>)
    ensures var r := ScopeOfPath(root, p);
      && (r == Local <==> p.Some? && IsAncestor(root, p.value))
      && (r == Dependency <==>
            p.Some? && !IsAncestor(root, p.value) && Strings.ContainsSub(Str(p.value), "site-packages"))
      && (r == Stdlib <==>
            p.None? || (!IsAncestor(root, p.value) && !Strings.ContainsSub(Str(p.value), "site-packages") && LibLike(p.value)))
      && r != Builtin
  {
  }

  /**
   * The scope `ModuleImportScopeClassifer(names, node)` leaves on a module
   * whose scope was `current`: LOCAL outright when its file's path exists,
   * otherwise the verdict for the last name, or `current` for no names.
   */
  function ClassifiedScope(
    fileExists: Path -> bool, findPath: string -> Option<Path>, root: Path,
    file: Option<FileInfo>, names: seq<string>, current: ImportScope): ImportScope
  {
    if file.Some? && fileExists(file.value.path) then Local
    else if names == [] then current
    else ScopeOfPath(root, findPath(Strings.Last(names)))
  }

  /** Only the last name counts: earlier names are looked up and then overwritten. */
  lemma {:induction false} LastNameWins(
    fileExists: Path -> bool, findPath: string -> Option<Path>, root: Path,
    file: Option<FileInfo>, names: seq<string>, name: string, current: ImportScope)
    ensures ClassifiedScope(fileExists, findPath, root, file, names + [name], current)
      == ClassifiedScope(fileExists, findPath, root, file, [name], current)
  {
    assert Strings.Last(names + [name]) == name;
  }

  /** A module whose file exists is LOCAL whatever the names and the lookup say. */
  lemma ExistingFileIsLocal(
    fileExists: Path -> bool, findPath: string -> Option<Path>, root: Path,
    f: FileInfo, names: seq<string>, current: ImportScope)
    requires fileExists(f.path)
    ensures ClassifiedScope(fileExists, findPath, root, Some(f), names, current) == Local
  {
  }

  /**
   * `ModuleImportScopeClassifer`: the file-existence test and the lookup are
   * the oracles `fileExists` and `findPath`.
   */
  class ScopeClassifier {
    const root: Path
    const fileExists: Path -> bool
    const findPath: string -> Option<Path>

    constructor (root: Path, fileExists: Path -> bool, findPath: string -> Option<Path>)
      ensures this.root == root && this.fileExists == fileExists && this.findPath == findPath
    {
      this.root := root;
      this.fileExists := fileExists;
      this.findPath := findPath;
    }

    /** `__call__(names, node)`: updates the module record's scope in place. */
    method Classify(names: seq<string>, store: Store, n: Node)
      requires n.ModuleNode? && Resolves(store.heap, n)
      modifies store
      ensures store.heap == SetScope(old(store.heap), n, ClassifiedScope(
        fileExists, findPath, root, old(store.heap).modules[n.mref].file, names,
        old(store.heap).modules[n.mref].scope))
    {
      ghost var h0 := store.heap;
      var m := store.heap.modules[n.mref];
      if m.file.Some? && fileExists(m.file.value.path) {
        store.AssignScope(n, Local);
        return;
      }
      var k := 0;
      while k < |names|
        invariant 0 <= k <= |names|
        invariant store.heap == if k == 0 then h0 else SetScope(h0, n, ScopeOfPath(root, findPath(names[k - 1])))
      {
        var p := findPath(names[k]);
        store.AssignScope(n, ScopeOfPath(root, p));
        k := k + 1;
      }
      if names == [] {
        assert h0.modules[n.mref := h0.modules[n.mref].(scope := m.scope)] == h0.modules;
      }
    }
  }

  // ---------------------------------------------------------------------
  // Class kind.

  /** The identifiers of the bare-name expressions, in order (`[d.id for d in ds if isinstance(d, ast.Name)]`). */
  function NameIds(es: seq<Expr>): (r: seq<string>)
    ensures forall s :: s in r <==> NameExpr(s) in es
    ensures |r| <= |es|
  {
    if es == [] then []
    else
      var rest := NameIds(es[1..]);
      assert forall e :: e in es <==> e == es[0] || e in es[1..];
      match es[0]
      case NameExpr(id) => [id] + rest
      case OtherExpr(_) => rest
  }

  /**
   * `ClassTypeClassifier`: NORMAL, then overwritten by each test that holds,
   * in order ABC/ABCMeta, Enum, a bare `dataclass` decorator, Protocol; so a
   * later test takes precedence over every earlier one.
   */
  function ClassKindOf(bases: seq<string>, decorators: seq<Expr>): (r: ClassType)
    ensures r == Protocol <==> "Protocol" in bases
    ensures r == Dataclass <==> "Protocol" !in bases && NameExpr("dataclass") in decorators
    ensures r == Enum <==> "Protocol" !in bases && NameExpr("dataclass") !in decorators && "Enum" in bases
    ensures r == Abstract <==>
      "Protocol" !in bases && NameExpr("dataclass") !in decorators && "Enum" !in bases
      && ("ABC" in bases || "ABCMeta" in bases)
    ensures r != Interface
  {
    var t := Normal;
    var t := if "ABC" in bases || "ABCMeta" in bases then Abstract else t;
    var t := if "Enum" in bases then Enum else t;
    var t := if "dataclass" in NameIds(decorators) then Dataclass else t;
    if "Protocol" in bases then Protocol else t
  }

  // ---------------------------------------------------------------------
  // Record builders.

  /** `FileToModuleAdapter`: a module named after the file, holding it, with scope UNKNOWN. */
  function FileToModule(f: FileInfo): (m: ModuleInfo)
    ensures m.name == f.name && m.file == Some(f) && m.scope == Unknown
    ensures m.imports == [] && m.kind == Script
  {
    NewModuleInfo(f.name, Some(f), Unknown)
  }

  /** The bare-name bases of a class definition (`[b.id for b in node.bases if isinstance(b, ast.Name)]`). */
  function BaseNames(bases: seq<Expr>): (r: seq<string>)
    ensures forall s :: s in r <==> NameExpr(s) in bases
  {
    NameIds(bases)
  }

  /**
   * The record `visit_ClassDef` builds as written: the decorators of the
   * definition are never passed on, so the classifier sees none.
   */
  function ClassRecordAsWritten(name: string, owner: Node, scope: ImportScope, bases: seq<Expr>, decorators: seq<Expr>): (c: ClassInfo)
    ensures c == ClassRecord(name, owner, scope, bases, [])
    ensures c.decorators == [] && c.kind != Dataclass
  {
    var c := NewClassInfo(name, owner, scope);
    c.(kind := ClassKindOf(BaseNames(bases), c.decorators))
  }

  /**
   * The record a class definition evidently should give: the same fields,
   * with the definition's decorators kept, so the classifier sees them.
   */
  function ClassRecord(name: string, owner: Node, scope: ImportScope, bases: seq<Expr>, decorators: seq<Expr>): (c: ClassInfo)
    ensures c.name == name && c.moduleNode == owner && c.scope == scope && c.decorators == decorators
    ensures c.bases == [] && c.methods == []
    ensures c.kind == ClassKindOf(BaseNames(bases), decorators)
    ensures c.kind == Dataclass <==> NameExpr("dataclass") in decorators && NameExpr("Protocol") !in bases
  {
    var c := NewClassInfo(name, owner, scope, decorators);
    c.(kind := ClassKindOf(BaseNames(bases), c.decorators))
  }

  /** `@dataclass class Point: ...` is a DATACLASS by the corrected record and NORMAL as written. */
  lemma DataclassLost(owner: Node, scope: ImportScope)
    ensures ClassRecord("Point", owner, scope, [], [NameExpr("dataclass")]).kind == Dataclass
    ensures ClassRecordAsWritten("Point", owner, scope, [], [NameExpr("dataclass")]).kind == Normal
  {
  }
}
