/**
 * The entity records of the analyzer: frozen value records for files and
 * directories, mutable records for modules and classes, the enumerations the
 * analyzer uses, and the graph node type.
 *
 * Records that Python updates in place (ModuleInfo, ClassInfo) live in a
 * `Heap`; a graph node refers to one by its index there, which stands for
 * Python object identity.
 */
module Model {
  import opened Wrappers
  import opened Paths
  import Strings

  /** Edge labels. */
  datatype Relation =
    | Contains | Imports | Defines | Methods | Calling | Aggregates
    | AttributeAccess | Uses | From | Inherit | Attribute

  /** Where the file defining a referenced symbol lives. */
  datatype ImportScope = Builtin | Stdlib | Dependency | Local | Unknown

  /** Class categories, including the PROTOCOL kind the analyzer assigns. */
  datatype ClassType = Normal | Abstract | Interface | Dataclass | Enum | Protocol

  datatype ModuleType = Test | Script | Config

  /** A syntax expression as far as the class classifier looks at it: a bare name or anything else. */
  datatype Expr = NameExpr(id: string) | OtherExpr(text: string)

  /** A frozen file record; equal fields mean the same graph node. */
  datatype FileInfo = FileInfo(name: string, format: string, path: Path, isExclude: bool)

  /** A frozen directory record holding one path. */
  datatype DirectoryNode = DirectoryNode(path: Path)

  datatype ModuleInfo = ModuleInfo(
    name: string,
    file: Option<FileInfo>,
    imports: seq<string>,
    kind: ModuleType,
    scope: ImportScope)

  /** A class record; `moduleNode` (Python `module`) refers to the owning record, as the Python field holds a reference. */
  datatype ClassInfo = ClassInfo(
    name: string,
    moduleNode: Node,
    bases: seq<Node>,
    methods: seq<Node>,
    kind: ClassType,
    scope: ImportScope,
    decorators: seq<Expr>)

  datatype FunctionInfo = FunctionInfo(
    name: string,
    moduleRecord: ModuleInfo,
    owner: Option<string>,
    argsTypes: seq<string>,
    returnType: Option<string>,
    scope: ImportScope)

  /**
   * A graph node. Files and directories are values; modules and classes are
   * references into the heap; `TextNode` is a plain string node.
   */
  datatype Node =
    | FileNode(file: FileInfo)
    | DirNode(dir: DirectoryNode)
    | ModuleNode(mref: nat)
    | ClassNode(cref: nat)
    | TextNode(text: string)

  /** The mutable records, indexed by the references graph nodes hold. */
  datatype Heap = Heap(modules: seq<ModuleInfo>, classes: seq<ClassInfo>)

  /** Every reference a node holds points into the heap. */
  predicate Resolves(h: Heap, n: Node) {
    match n
    case ModuleNode(i) => i < |h.modules|
    case ClassNode(i) => i < |h.classes|
    case _ => true
  }

  /** The runtime class of a node, as `isinstance` tests it. */
  datatype NodeKind = FileKind | DirKind | ModuleKind | ClassKind | TextKind

  function KindOf(n: Node): (k: NodeKind)
    ensures k == FileKind <==> n.FileNode?
    ensures k == ModuleKind <==> n.ModuleNode?
    ensures k == ClassKind <==> n.ClassNode?
  {
    match n
    case FileNode(_) => FileKind
    case DirNode(_) => DirKind
    case ModuleNode(_) => ModuleKind
    case ClassNode(_) => ClassKind
    case TextNode(_) => TextKind
  }

  /** The heap `h'` keeps every record of `h` at its index and may have more. */
  predicate Extends(h: Heap, h': Heap) {
    |h.modules| <= |h'.modules| && |h.classes| <= |h'.classes|
  }

  /** A reference that resolves keeps resolving in a heap that extends its own. */
  lemma ResolvesMono(h: Heap, h': Heap, n: Node)
    requires Resolves(h, n) && Extends(h, h')
    ensures Resolves(h', n)
  {
  }

  /** `h'` extends `h` and differs from it at most in the scopes of the records `h` has. */
  predicate ScopesOnly(h: Heap, h': Heap) {
    && Extends(h, h')
    && (forall i | 0 <= i < |h.modules| :: h'.modules[i].(scope := h.modules[i].scope) == h.modules[i])
    && (forall i | 0 <= i < |h.classes| :: h'.classes[i].(scope := h.classes[i].scope) == h.classes[i])
  }

  lemma ScopesOnlyTrans(h1: Heap, h2: Heap, h3: Heap)
    requires ScopesOnly(h1, h2) && ScopesOnly(h2, h3)
    ensures ScopesOnly(h1, h3)
  {
    forall i | 0 <= i < |h1.modules|
      ensures h3.modules[i].(scope := h1.modules[i].scope) == h1.modules[i]
    {
      assert h3.modules[i].(scope := h2.modules[i].scope) == h2.modules[i];
    }
    forall i | 0 <= i < |h1.classes|
      ensures h3.classes[i].(scope := h1.classes[i].scope) == h1.classes[i]
    {
      assert h3.classes[i].(scope := h2.classes[i].scope) == h2.classes[i];
    }
  }

  /** Changing scopes only leaves every name, path and text the finders read as it was. */
  lemma ScopesOnlyAttrs(h: Heap, h': Heap, n: Node)
    requires ScopesOnly(h, h') && Resolves(h, n)
    ensures AttrsOf(h', n) == AttrsOf(h, n)
  {
    match n
    case ModuleNode(i) => assert h'.modules[i].name == h'.modules[i].(scope := h.modules[i].scope).name;
    case ClassNode(i) => assert h'.classes[i].name == h'.classes[i].(scope := h.classes[i].scope).name;
    case _ =>
  }

  /** `getattr(n, "scope", None)`: only module and class records carry a scope. */
  function ScopeOf(h: Heap, n: Node): (r: Option<ImportScope>)
    requires Resolves(h, n)
    ensures r.Some? <==> n.ModuleNode? || n.ClassNode?
  {
    match n
    case ModuleNode(i) => Some(h.modules[i].scope)
    case ClassNode(i) => Some(h.classes[i].scope)
    case _ => None
  }

  /** The heap after `n.scope = s` on the module or class record `n` refers to. */
  function SetScope(h: Heap, n: Node, s: ImportScope): (r: Heap)
    requires Resolves(h, n) && (n.ModuleNode? || n.ClassNode?)
    ensures |r.modules| == |h.modules| && |r.classes| == |h.classes|
    ensures ScopeOf(r, n) == Some(s)
    ensures AttrsOf(r, n) == AttrsOf(h, n)
    ensures ScopesOnly(h, r)
    ensures forall x | x != n && Resolves(h, x) :: ScopeOf(r, x) == ScopeOf(h, x) && AttrsOf(r, x) == AttrsOf(h, x)
  {
    match n
    case ModuleNode(i) => h.(modules := h.modules[i := h.modules[i].(scope := s)])
    case ClassNode(i) => h.(classes := h.classes[i := h.classes[i].(scope := s)])
  }

  /**
   * What `getattr(node, "path"/"name"/"format", None)` and `str(node)` give
   * for a node; only files carry a format, only files and directories a path.
   */
  datatype Attrs = Attrs(path: Option<Path>, name: Option<string>, format: Option<string>, text: string)

  function AttrsOf(h: Heap, n: Node): (a: Attrs)
    ensures a.path.Some? <==> n.FileNode? || n.DirNode?
    ensures a.format.Some? <==> n.FileNode?
    ensures n.FileNode? ==> a.name == Some(n.file.name)
    ensures n.DirNode? || n.TextNode? ==> a.name.None?
  {
    match n
    case FileNode(f) => Attrs(Some(f.path), Some(f.name), Some(f.format), "")
    case DirNode(d) => Attrs(Some(d.path), None, None, "")
    case ModuleNode(i) => Attrs(None, if i < |h.modules| then Some(h.modules[i].name) else None, None, "")
    case ClassNode(i) => Attrs(None, if i < |h.classes| then Some(h.classes[i].name) else None, None, "")
    case TextNode(s) => Attrs(None, None, None, s)
  }

  /** `ModuleInfo(name, file)` with the dataclass defaults for the other fields. */
  function NewModuleInfo(name: string, file: Option<FileInfo> := None, scope: ImportScope := Local): (m: ModuleInfo)
    ensures m.name == name && m.file == file && m.scope == scope
    ensures m.imports == [] && m.kind == Script
  {
    ModuleInfo(name, file, [], Script, scope)
  }

  /** `ClassInfo(name, module)` with the dataclass defaults for the other fields. */
  function NewClassInfo(name: string, moduleNode: Node, scope: ImportScope := Local, decorators: seq<Expr> := []): (c: ClassInfo)
    ensures c.name == name && c.moduleNode == moduleNode && c.scope == scope && c.decorators == decorators
    ensures c.bases == [] && c.methods == [] && c.kind == Normal
  {
    ClassInfo(name, moduleNode, [], [], Normal, scope, decorators)
  }

  // ---------------------------------------------------------------------
  // Dataclass reprs, as `f"{record}"` renders them (strings are quoted with
  // single quotes; escaping is not modelled).

  function Quote(s: string): string {
    "'" + s + "'"
  }

  function ListRepr(xs: seq<string>): string {
    "[" + Strings.Join(seq(|xs|, i requires 0 <= i < |xs| => Quote(xs[i])), ", ") + "]"
  }

  function ModuleTypeRepr(t: ModuleType): string {
    match t
    case Test => "<ModuleType.TEST: 'test'>"
    case Script => "<ModuleType.SCRIPT: 'script'>"
    case Config => "<ModuleType.CONFIG: 'config'>"
  }

  function ScopeRepr(s: ImportScope): string {
    match s
    case Builtin => "<ImportScope.BUILTIN: 'builtin'>"
    case Stdlib => "<ImportScope.STDLIB: 'stdlib'>"
    case Dependency => "<ImportScope.DEPENDENCY: 'dependency'>"
    case Local => "<ImportScope.LOCAL: 'local'>"
    case Unknown => "<ImportScope.UNKNOWN: 'unknown'>"
  }

  function FileRepr(f: FileInfo): string {
    "FileInfo(name=" + Quote(f.name) + ", format=" + Quote(f.format)
    + ", path=PosixPath(" + Quote(Str(f.path)) + "), is_exclude="
    + (if f.isExclude then "True" else "False") + ")"
  }

  function ModuleRepr(m: ModuleInfo): (r: string)
    ensures Strings.OccursAt(r, "ModuleInfo(name='" + m.name, 0)
  {
    var head := "ModuleInfo(name='" + m.name;
    var tail := "', file=" + (if m.file.Some? then FileRepr(m.file.value) else "None")
      + ", imports=" + ListRepr(m.imports)
      + ", type=" + ModuleTypeRepr(m.kind)
      + ", scope=" + ScopeRepr(m.scope) + ")";
    ConcatEnds(head, tail);
    head + tail
  }

  // ---------------------------------------------------------------------
  // Qualified names.

  /**
   * `ClassInfo.qualname` as written: the owning module RECORD is formatted,
   * so the result is the record's repr, a dot and the class name.
   */
  function ClassQualnameAsWritten(owner: ModuleInfo, c: ClassInfo): (r: string)
    ensures Strings.EndsWith(r, "." + c.name)
    ensures Strings.OccursAt(r, "ModuleInfo(name='" + owner.name, 0)
  {
    var r := ModuleRepr(owner) + ("." + c.name);
    Strings.PrefixThenSuffix(ModuleRepr(owner), "." + c.name, "ModuleInfo(name='" + owner.name);
    r
  }

  /** The qualified name the design describes: module name, a dot, class name. */
  function ClassQualname(owner: ModuleInfo, c: ClassInfo): (r: string)
    ensures Strings.EndsWith(r, "." + c.name)
    ensures Strings.OccursAt(r, owner.name + ".", 0)
    ensures |r| == |owner.name| + 1 + |c.name|
  {
    var r := owner.name + "." + c.name;
    assert r[..|owner.name + "."|] == owner.name + ".";
    assert r[|r| - |"." + c.name|..] == "." + c.name;
    r
  }

  /** The as-written form is never the module-name form: it is strictly longer. */
  lemma QualnameDiscrepancy(owner: ModuleInfo, c: ClassInfo)
    ensures ClassQualnameAsWritten(owner, c) != ClassQualname(owner, c)
  {
    assert |ModuleRepr(owner)| > |owner.name| + 1;
  }

  /** A module "mod" holding class "A": the design's "mod.A", which the as-written form misses. */
  lemma QualnameModA()
    ensures ClassQualname(NewModuleInfo("mod"), NewClassInfo("A", ModuleNode(0))) == "mod.A"
    ensures ClassQualnameAsWritten(NewModuleInfo("mod"), NewClassInfo("A", ModuleNode(0))) != "mod.A"
  {
    QualnameDiscrepancy(NewModuleInfo("mod"), NewClassInfo("A", ModuleNode(0)));
  }

  /** `a + b` starts with `a` and ends with `b`. */
  lemma ConcatEnds(a: string, b: string)
    ensures Strings.OccursAt(a + b, a, 0)
    ensures Strings.EndsWith(a + b, b)
  {
    assert (a + b)[..|a|] == a;
    assert (a + b)[|a + b| - |b|..] == b;
  }

  /** A prefix of `a` stays a prefix of `a + b`. */
  lemma PrefixExtends(a: string, pre: string, b: string)
    requires Strings.OccursAt(a, pre, 0)
    ensures Strings.OccursAt(a + b, pre, 0)
  {
    assert (a + b)[..|pre|] == a[..|pre|];
  }

  /** What `FunctionInfo.qualname` puts before the dot. */
  function FunctionQualHead(f: FunctionInfo): (h: string)
    ensures f.owner.Some? && f.owner.value != "" ==> h == f.owner.value
    ensures !(f.owner.Some? && f.owner.value != "") ==> Strings.OccursAt(h, "ModuleInfo(name='" + f.moduleRecord.name, 0)
  {
    if f.owner.Some? && f.owner.value != "" then f.owner.value else ModuleRepr(f.moduleRecord)
  }

  /**
   * `FunctionInfo.qualname`: the owner name when `owner` is a non-empty
   * string (Python truthiness), otherwise the formatted module record; then a
   * dot and the function name.
   */
  function FunctionQualname(f: FunctionInfo): (r: string)
    ensures Strings.EndsWith(r, "." + f.name)
    ensures f.owner.Some? && f.owner.value != "" ==> Strings.OccursAt(r, f.owner.value + ".", 0)
    ensures f.owner.Some? && f.owner.value != "" ==> |r| == |f.owner.value| + 1 + |f.name|
    ensures !(f.owner.Some? && f.owner.value != "") ==> Strings.OccursAt(r, "ModuleInfo(name='" + f.moduleRecord.name, 0)
  {
    var head := FunctionQualHead(f);
    ConcatEnds(head + ".", f.name);
    ConcatEnds(head, "." + f.name);
    assert head + "." + f.name == head + ("." + f.name);
    if f.owner.Some? && f.owner.value != "" then head + "." + f.name
    else
      PrefixExtends(head, "ModuleInfo(name='" + f.moduleRecord.name, "." + f.name);
      head + "." + f.name
  }
}
