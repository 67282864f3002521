# SpagettyPy graph core in Dafny

SpagettyPy reads a Python project and builds a typed relationship graph of it. The graph has:

- directories, files, modules and classes as nodes;
- `CONTAINS`, `IMPORTS`, `FROM`, `DEFINES` and `INHERIT` relations as edge labels.

This project models the core that builds and reads that graph, and proves what each part promises:

- **Graph facade** (`GraphX`, module `Graph`). A class over a node list, a successor map and an edge-label map. Its methods change the graph in place. The model keeps networkx's behaviour:
  - adding an existing node or edge does not duplicate it;
  - re-adding an edge overwrites its label;
  - removing a node removes every edge that touches it;
  - removing or listing something missing raises an error, which becomes `ok == false` or `None`.
- **Filters and finders** (`Filters`, `Finders`). These are pure functions over the edge list and the node list:
  - each filter yields exactly the edge ends, or the edges, that pass its class or label test, in edge order;
  - each finder returns the first node, in node order, that matches by name or by import path.
- **Entity records** (`Model`, `Records`).
  - Files and directories are frozen values.
  - Module and class records are mutable in Python, so they live in a `Heap`, and a node refers to a record by its index there. Python object identity (`is`) is therefore node equality.
  - `Records.Store` is the object that owns the heap.
- **Structure analyzer** (`Classifiers`, `StructureAnalysis`):
  - the module scope classifier and the class-kind classifier;
  - the `StructureAnalyzer` visitor: imports, from-imports, class definitions and inheritance;
  - the `GlobalVisitor`;
  - the `ASTAnalyzerPipeline`, which turns each file node into a module record and runs the analyzers over its syntax tree.

  Each visitor method states which edges it adds, with their labels. The rest of the graph only grows by such edges; existing records only change their scope, and new ones are appended.
- **Directory parser** (`DirectoryParsing`):
  - the format checker;
  - filtering;
  - grouping files by their directory key;
  - sorting the keys by depth;
  - the directory and file edges added for each group.

  The edges the parser adds are proved to equal a file-by-file definition (`ParsedEdges`). That definition does not depend on grouping or on key order.
- **Tree exporter** (`TreeExport`). It is proved phase by phase:
  - the label table recorded from the edges;
  - attaching orphans to the root;
  - merging `"."`;
  - stripping `"."`;
  - the recursive rendering walk with its counters.

  The output is the rendered entries joined by newlines, plus the files/directories summary. The root's entries are its sorted children.

Several things outside the model become parameters:
- the file system (`fileExists`);
- the module path lookup (`findPath`);
- reading and parsing a file (`parse`);
- walking a directory (`walked`);
- the `_rel` method (`rel`).

The Python exceptions the code can raise (`AttributeError` and `FrozenInstanceError` on a record it cannot update, an unreadable file, a missing node) are modelled as an `ok == false` or `Failure` result. Processing stops at that point.

Where the documented design and the code disagree, the model follows the code, except for the class record that `visit_ClassDef` stores (see "## Findings" and "## Left out"):

- **Class-kind precedence.** The documented precedence makes `enum` win over `dataclass`. `ClassTypeClassifier` checks the `dataclass` decorator after `Enum` (`structure_analyzer.py:114-117`), so a dataclass enum is classified as `dataclass`. `Classifiers.ClassKindOf` follows the code.
- **Record shapes.** `model.py` as shipped predates the analyzer:
  - it names the scope enumeration `ImportOrigin`, not `ImportScope`;
  - it has no `UNKNOWN`, `BUILTIN` or `DEPENDENCY` scope and no `PROTOCOL` kind;
  - it requires `ModuleInfo.file`, which `InfoFactoryByName.create_module` leaves out;
  - it gives `ClassInfo` no `decorators`, although `visit_ClassDef` and the class classifier use one.

  The model uses the record shapes the analyzer code expects. The `attributes=[]` argument of `visit_ClassDef` is dropped.
- **A file that cannot be read.** The documented design skips such a file and adds no module for it. The pipeline adds the module's CONTAINS edge (`structure_analyzer.py:153`) before it opens the file, and the open raises (`structure_analyzer.py:156`). `AnalyzerPipeline.FileOf` follows the code: the edge is in the graph and the run ends with `ok == false`.

## Model

| member | source | states |
|---|---|---|
| Graph.GraphX.constructor | src/spagettypy/analyzer/graph/networkx_facade.py:13-14 | a new graph has no nodes and no edges |
| Graph.GraphX.AddNode | src/spagettypy/analyzer/graph/networkx_facade.py:16-17 | an absent node is appended with no successors. Re-adding a node changes nothing. Edges and labels are unchanged. |
| Graph.GraphX.RemoveNode | src/spagettypy/analyzer/graph/networkx_facade.py:19-20 | `ok` holds iff the node was present. If not, nothing changes (networkx raises). If so, the node and exactly the edges touching it are gone, every other edge keeps its label, and each successor list keeps its order with the node dropped. |
| Graph.GraphX.HasNode | src/spagettypy/analyzer/graph/networkx_facade.py:22-23 | true iff the node is in the graph |
| Graph.GraphX.Nodes | src/spagettypy/analyzer/graph/networkx_facade.py:25-26 | lists every node of the graph exactly once, and nothing else |
| Graph.GraphX.AddEdge | src/spagettypy/analyzer/graph/networkx_facade.py:28-29 | both ends become nodes, the missing ones appended in order `u`, `v`, and the edge exists with the given label. An existing edge only gets the new label and keeps its place. A new edge goes last among the successors of `u`. All other labels and successor lists are kept. |
| Graph.GraphX.RemoveEdge | src/spagettypy/analyzer/graph/networkx_facade.py:31-32 | `ok` holds iff the edge existed. Exactly that edge is removed, and `v` leaves the successor list of `u`, which otherwise keeps its order. The nodes stay. |
| Graph.GraphX.HasEdge | src/spagettypy/analyzer/graph/networkx_facade.py:34-35 | true iff the target is a successor of the source; both ends are then nodes |
| Graph.GraphX.EdgesExact | src/spagettypy/analyzer/graph/networkx_facade.py:37-39 | the edge list holds exactly the present edges, each once, each with its stored label |
| Graph.GraphX.Children | src/spagettypy/analyzer/graph/networkx_facade.py:41-42 | None (networkx raises) iff the node is absent. Otherwise exactly its successors, without repeats. |
| Graph.GraphX.Parents | src/spagettypy/analyzer/graph/networkx_facade.py:44-45 | None iff the node is absent. Otherwise exactly its predecessors, without repeats. |
| Graph.GraphX.GetEdgeData | src/spagettypy/analyzer/graph/networkx_facade.py:53-55 | the stored label if the edge exists, None otherwise |
| Graph.GraphX.Subgraph | src/spagettypy/analyzer/graph/networkx_facade.py:58-61 | a fresh graph. Its nodes are this graph's nodes that are in the list, in this graph's node order. Its edges are exactly this graph's edges between two such nodes, with their labels. |
| Graph.GraphX.CopyNodes | src/spagettypy/analyzer/graph/networkx_facade.py:58-61 | the first half of `subgraph(...).copy()`: a fresh edgeless graph whose nodes are exactly this graph's nodes that are in the list, in this graph's node order |
| Graph.GraphX.Len | src/spagettypy/analyzer/graph/networkx_facade.py:63-64 | the number of distinct nodes |
| Graph.CopyEdges | src/spagettypy/analyzer/graph/networkx_facade.py:60 | copying an edge list into an edgeless graph yields exactly the edges between kept nodes; the nodes are unchanged |
| Filters.FilterSet | src/spagettypy/analyzer/graph/filters.py:13-19 | a single class becomes a one-element set; a sequence becomes the set of its elements |
| Filters.FilterSetEmpty | src/spagettypy/analyzer/graph/filters.py:16-19 | the filter set is empty exactly when an empty sequence was given |
| Filters.Match | src/spagettypy/analyzer/graph/filters.py:21-22 | true iff the object's class is one of the filter's classes |
| Filters.Ends | src/spagettypy/analyzer/graph/filters.py:31-35 | two entries per edge: its target, then its source |
| Filters.FilterNodeByClass | src/spagettypy/analyzer/graph/filters.py:27-29 | an empty filter yields nothing |
| Filters.FilterNodeByClassSpec | src/spagettypy/analyzer/graph/filters.py:27-35 | yields exactly the edge ends whose class test equals `include`. They come in edge order, target before source, with repeats kept. |
| Filters.FilterNodeByClassPartition | src/spagettypy/analyzer/graph/filters.py:27-35 | the include and exclude filters together yield every edge end exactly once (multiset) |
| Filters.FilterEdgeByClass | src/spagettypy/analyzer/graph/filters.py:38-45 | yields exactly the edges for which "both ends match" equals `include`, in edge order. An empty filter yields nothing. |
| Filters.ExcludeEdgeByClass | src/spagettypy/analyzer/graph/filters.py:44-45 | the exclude filter keeps an edge iff at least one end does not match |
| Filters.FilterEdgeByClassPartition | src/spagettypy/analyzer/graph/filters.py:38-45 | the include and exclude filters split the edge list (multiset) |
| Filters.FilterEdgeByRelations | src/spagettypy/analyzer/graph/filters.py:48-54 | yields exactly the edges for which "label in the set" equals `include`, in edge order. An empty filter yields nothing. |
| Filters.FilterEdgeByRelationsPartition | src/spagettypy/analyzer/graph/filters.py:48-54 | the include and exclude filters split the edge list (multiset) |
| Finders.FindNodeByName | src/spagettypy/analyzer/graph/finders.py:12-16 | the result is a node of the graph |
| Finders.FindNodeByNameFirst | src/spagettypy/analyzer/graph/finders.py:12-16 | None iff no node has that name. Otherwise the first node, in node order, whose name attribute equals it. |
| Finders.ImportPathOf | src/spagettypy/analyzer/graph/finders.py:35-48 | defined iff the node has a path and a non-empty name, and the path lies under the root. The dotted path is non-empty and ends with the name. |
| Finders.ImportPathSegments | src/spagettypy/analyzer/graph/finders.py:45-48 | splitting the import path on "." gives the relative path parts followed by the name, when none of them contains "." |
| Finders.QueryShape | src/spagettypy/analyzer/graph/finders.py:52-54 | the stripped query neither starts nor ends with "." The target name has no "." and is a suffix of the query. |
| Finders.FindNodeByImportLike | src/spagettypy/analyzer/graph/finders.py:51-67 | the result is a node of the graph |
| Finders.FindNodeByImportLikeFirst | src/spagettypy/analyzer/graph/finders.py:51-67 | if some node's import path ends with the stripped query, the result is the first such node. Otherwise it is the by-name lookup of the query's last segment. |
| Strings.Strip | src/spagettypy/analyzer/graph/finders.py:52 | `str.strip(c)`: the result is the input with a run of `c` removed at each end; it neither starts nor ends with `c` |
| Strings.JoinSplit | src/spagettypy/analyzer/graph/finders.py:48-53 | joining the pieces of a split with the separator gives the string back |
| Strings.SplitJoin | src/spagettypy/analyzer/graph/finders.py:48-53 | splitting a join of separator-free pieces gives the pieces back |
| Strings.Contains | src/spagettypy/analyzer/parsers/structure_analyzer.py:98 | Python's `sub in s`: true iff `sub` occurs in `s` at some index |
| Strings.Lower | src/spagettypy/analyzer/parsers/structure_analyzer.py:100 | same length, each character lowered |
| Paths.RelativeTo | src/spagettypy/analyzer/graph/finders.py:40-43 | defined iff the path lies under the root (otherwise `ValueError`); the root's parts followed by the result give the path |
| Paths.Name | src/spagettypy/analyzer/exporters/tree_exporter.py:19 | a non-empty name is the last part of the path |
| Model.KindOf | src/spagettypy/analyzer/model.py:27-53 | the record class of a node: file, module or class exactly for those nodes |
| Model.AttrsOf | src/spagettypy/analyzer/model.py:27-53 | `getattr`: files and directories have a path, only files have a format, a file's name is its file name, directories and text nodes have no name |
| Model.NewModuleInfo | src/spagettypy/analyzer/model.py:38-44 | the given fields, no imports, type SCRIPT, scope LOCAL by default |
| Model.NewClassInfo | src/spagettypy/analyzer/model.py:46-53 | the given fields, no bases or methods, type NORMAL, scope LOCAL by default |
| Model.SetScope | src/spagettypy/analyzer/parsers/structure_analyzer.py:203-204 | assigning a record's scope changes that scope only: the other attributes and every other record stay the same |
| Model.ModuleRepr | src/spagettypy/analyzer/model.py:38-44 | the dataclass `repr` of a module record begins `ModuleInfo(name='<name>` |
| Model.ClassQualnameAsWritten | src/spagettypy/analyzer/model.py:54-56 | the property as written begins with the owning record's `repr` and ends with "." and the class name |
| Model.ClassQualname | src/spagettypy/analyzer/model.py:54-56 | the intended qualified name: exactly module name, ".", class name |
| Model.QualnameDiscrepancy | src/spagettypy/analyzer/model.py:54-56 | for every module and class, the property as written differs from the intended name |
| Model.QualnameModA | src/spagettypy/analyzer/model.py:54-56 | class `A` in module `mod`: the intended name is `mod.A`; the code as written does not give it |
| Model.FunctionQualname | src/spagettypy/analyzer/model.py:66-68 | ends with "." and the function name. With a non-empty owner it begins with the owner and "." and is exactly as long as owner, ".", and name together, so it is exactly `owner.name`; otherwise it begins with the module record's `repr`. |
| Records.Store.AddModule | src/spagettypy/analyzer/parsers/structure_analyzer.py:130-132 | a new module record is appended and gets the next reference; existing records are unchanged |
| Records.Store.AddClass | src/spagettypy/analyzer/parsers/structure_analyzer.py:134-135 | a new class record is appended and gets the next reference; existing records are unchanged |
| Classifiers.ScopeOfPathSpec | src/spagettypy/analyzer/parsers/structure_analyzer.py:89-103 | decision table for one looked-up name, each case in both directions: LOCAL iff a path was found under the root; DEPENDENCY iff found outside it with `site-packages` in it; STDLIB iff not found, or found elsewhere with `lib`/`python` in it; never BUILTIN |
| Classifiers.ExistingFileIsLocal | src/spagettypy/analyzer/parsers/structure_analyzer.py:84-86 | a module whose file exists is LOCAL whatever the names |
| Classifiers.LastNameWins | src/spagettypy/analyzer/parsers/structure_analyzer.py:88-104 | each name overwrites the scope, so only the last name decides |
| Classifiers.ScopeClassifier.Classify | src/spagettypy/analyzer/parsers/structure_analyzer.py:78-104 | the module record's scope becomes the classified scope and nothing else in the store changes |
| Classifiers.ClassKindOf | src/spagettypy/analyzer/parsers/structure_analyzer.py:109-121 | last rule wins, so each kind holds iff: PROTOCOL when a base is `Protocol`; else DATACLASS when decorated `@dataclass`; else ENUM when a base is `Enum`; else ABSTRACT when a base is `ABC`/`ABCMeta`. Never INTERFACE. |
| Classifiers.NameIds | src/spagettypy/analyzer/parsers/structure_analyzer.py:116 | exactly the ids of the bare-name decorators |
| Classifiers.BaseNames | src/spagettypy/analyzer/parsers/structure_analyzer.py:237 | exactly the ids of the bare-name bases |
| Classifiers.FileToModule | src/spagettypy/analyzer/parsers/structure_analyzer.py:126-128 | a module named after the file, holding it, scope UNKNOWN |
| Classifiers.ClassRecordAsWritten | src/spagettypy/analyzer/parsers/structure_analyzer.py:242-248 | the record `visit_ClassDef` builds is the corrected record with no decorators: same name, owner, scope and bases, and never a dataclass |
| Classifiers.ClassRecord | src/spagettypy/analyzer/parsers/structure_analyzer.py:235-248 | the corrected record keeps the decorators; its kind is the class-kind rule's, DATACLASS iff `@dataclass` and no `Protocol` base |
| Classifiers.DataclassLost | src/spagettypy/analyzer/parsers/structure_analyzer.py:116 | a `@dataclass` class is DATACLASS with the corrected record, NORMAL as written |
| StructureAnalysis.StructureAnalyzer.constructor | src/spagettypy/analyzer/parsers/structure_analyzer.py:171-177 | the analyzer shares the given graph and record store and has no current module or class |
| StructureAnalysis.StructureAnalyzer.ResolveModule | src/spagettypy/analyzer/parsers/structure_analyzer.py:179-195 | the node and records are those of `ModuleOf`, by what the import-path finder returns. Nothing: a new module record, LOCAL and not classified. A file: a new module record for it, classified from UNKNOWN. A module: that module, classified only if its scope is UNKNOWN. A class: itself, or failure when its scope is UNKNOWN (the classifier reads a file a class lacks). A directory: failure. |
| StructureAnalysis.StructureAnalyzer.ClassifyIfUnknown | src/spagettypy/analyzer/parsers/structure_analyzer.py:191-193 | a known scope is left alone; an UNKNOWN module scope is classified; any other UNKNOWN record fails |
| StructureAnalysis.StructureAnalyzer.ResolveClass | src/spagettypy/analyzer/parsers/structure_analyzer.py:197-206 | the node and records are those of `ClassOf`, by what the name finder returns. Nothing: a new class record owned by the given module. A module or class: itself, taking the owner's scope if its own is UNKNOWN. A file or directory: failure (it has no `scope`, and setting one raises). |
| StructureAnalysis.StructureAnalyzer.VisitImport | src/spagettypy/analyzer/parsers/structure_analyzer.py:208-212 | the graph and the records are those of `ImportsOf`: each alias, in order, is resolved as a module and gets an IMPORTS edge from the current module, up to the first that raises. These are the only edges added or relabelled. Records only change scope. |
| StructureAnalysis.StructureAnalyzer.ImportAlias | src/spagettypy/analyzer/parsers/structure_analyzer.py:209-212 | one alias: the target is the node `_resolve_module` gives, and exactly one IMPORTS edge from the current module to it is set |
| StructureAnalysis.StructureAnalyzer.VisitImportFrom | src/spagettypy/analyzer/parsers/structure_analyzer.py:214-231 | the graph and the records are those of `ImportFromOf`. The base is resolved first, as a module; if that fails, no edge is touched. Otherwise each alias gets an IMPORTS edge from the current module to its resolved node and, unless it is the base, a FROM edge from it to the base. No other edge changes. |
| StructureAnalysis.StructureAnalyzer.ImportFromAliases | src/spagettypy/analyzer/parsers/structure_analyzer.py:218-231 | the alias loop gives the state of `FromAliasesOf`: exactly the IMPORTS and FROM edges of the aliases resolved so far are added |
| StructureAnalysis.StructureAnalyzer.FromAlias | src/spagettypy/analyzer/parsers/structure_analyzer.py:219-231 | the target is the node `ImportedOf` resolves for the dotted full name. The alias adds IMPORTS from the current module and, if it is not the base (`is not`), FROM to the base, and nothing else. |
| StructureAnalysis.StructureAnalyzer.ResolveImported | src/spagettypy/analyzer/parsers/structure_analyzer.py:221-226 | the node and records are those of `ImportedOf`. A full name the finder maps to a module or file is resolved as a module. Otherwise the alias is resolved as a class owned by the base: the node found by name, or a new class record. |
| StructureAnalysis.StructureAnalyzer.DefineClass | src/spagettypy/analyzer/parsers/structure_analyzer.py:235-256 | the state is that of `DefineClassOf`. A new class record with the module's scope becomes the current class and gets a DEFINES edge from the module. Each bare-name base is resolved by `_resolve_class` and gets an INHERIT edge. No other edge changes. |
| StructureAnalysis.StructureAnalyzer.OpenClass | src/spagettypy/analyzer/parsers/structure_analyzer.py:242-249 | the new record is appended to the store, becomes the current class and gets exactly one new DEFINES edge from the module (`OpenClassOf`) |
| StructureAnalysis.StructureAnalyzer.InheritAll | src/spagettypy/analyzer/parsers/structure_analyzer.py:251-253 | the state of `InheritsOf`: each base, in order, is resolved as a class and gets exactly one INHERIT edge from the class, up to the first that raises |
| StructureAnalysis.StructureAnalyzer.InheritBase | src/spagettypy/analyzer/parsers/structure_analyzer.py:252-253 | one base: the target is the node `_resolve_class` gives, and exactly one INHERIT edge to it is set |
| StructureAnalysis.StructureAnalyzer.Analyze | src/spagettypy/analyzer/parsers/base.py:16-18 | the module becomes current. The graph and the records are then those of `VisitOf` on the tree: only structure edges are added (from a module or class, labelled IMPORTS/FROM/DEFINES/INHERIT), and records only change scope. |
| StructureAnalysis.StructureAnalyzer.Visit | src/spagettypy/analyzer/parsers/structure_analyzer.py:256 | visiting statements in order gives the state of `VisitOf`, stopping at the first that raises; the current module is kept |
| StructureAnalysis.StructureAnalyzer.VisitStmt | src/spagettypy/analyzer/parsers/structure_analyzer.py:208-256 | one statement gives the state of `StmtOf`: imports and class definitions by their visitors, then `generic_visit` into nested bodies |
| StructureAnalysis.StructureAnalyzer.ModuleOf | src/spagettypy/analyzer/parsers/structure_analyzer.py:179-195 | `_resolve_module` as a function of the graph and records: existing records only change scope, and a resolved node is a module or class record of the store |
| StructureAnalysis.StructureAnalyzer.ClassOf | src/spagettypy/analyzer/parsers/structure_analyzer.py:197-206 | `_resolve_class` as a function of the graph and records: existing records only change scope, and a resolved node is a module or class record |
| StructureAnalysis.StructureAnalyzer.ClassFoundOf | src/spagettypy/analyzer/parsers/structure_analyzer.py:198-201 | a node the name finder gives is returned with the records unchanged. Otherwise a new class record is appended. |
| StructureAnalysis.StructureAnalyzer.ScopedOf | src/spagettypy/analyzer/parsers/structure_analyzer.py:203-204 | failure exactly when the scope is UNKNOWN or missing and the node is neither a module nor a class; on success the node is returned and only its scope may change |
| StructureAnalysis.StructureAnalyzer.ClassifiedOf | src/spagettypy/analyzer/parsers/structure_analyzer.py:191-193 | success exactly for a module or a record whose scope is known; then the same node is returned, a module or class |
| StructureAnalysis.StructureAnalyzer.NewModuleOf | src/spagettypy/analyzer/parsers/structure_analyzer.py:184-193 | the new record gets the next module reference and the existing records are unchanged |
| StructureAnalysis.StructureAnalyzer.ImportedOf | src/spagettypy/analyzer/parsers/structure_analyzer.py:221-226 | one alias of `visit_ImportFrom`: existing records only change scope, and the resolved node is a module or class record |
| StructureAnalysis.StructureAnalyzer.ImportAliasOf | src/spagettypy/analyzer/parsers/structure_analyzer.py:209-212 | one alias of `visit_Import`: the graph stays consistent with the records and records only change scope |
| StructureAnalysis.StructureAnalyzer.ImportsOf | src/spagettypy/analyzer/parsers/structure_analyzer.py:208-212 | the aliases of `visit_Import` one after the other: records only change scope |
| StructureAnalysis.StructureAnalyzer.FromAliasOf | src/spagettypy/analyzer/parsers/structure_analyzer.py:219-231 | one alias of `visit_ImportFrom`: records only change scope |
| StructureAnalysis.StructureAnalyzer.FromAliasesOf | src/spagettypy/analyzer/parsers/structure_analyzer.py:218-231 | the alias loop of `visit_ImportFrom`: records only change scope |
| StructureAnalysis.StructureAnalyzer.ImportFromOf | src/spagettypy/analyzer/parsers/structure_analyzer.py:214-231 | `visit_ImportFrom`, the base first: records only change scope |
| StructureAnalysis.StructureAnalyzer.OpenClassOf | src/spagettypy/analyzer/parsers/structure_analyzer.py:242-249 | the class record is appended with the next class reference, and records only change scope |
| StructureAnalysis.StructureAnalyzer.InheritBaseOf | src/spagettypy/analyzer/parsers/structure_analyzer.py:252-253 | one base of `visit_ClassDef`: records only change scope |
| StructureAnalysis.StructureAnalyzer.InheritsOf | src/spagettypy/analyzer/parsers/structure_analyzer.py:251-253 | the base loop of `visit_ClassDef`: records only change scope |
| StructureAnalysis.StructureAnalyzer.DefineClassOf | src/spagettypy/analyzer/parsers/structure_analyzer.py:235-253 | `visit_ClassDef` before its body: records only change scope |
| StructureAnalysis.StructureAnalyzer.VisitOf | src/spagettypy/analyzer/parsers/structure_analyzer.py:208-256 | the visit of a statement list: records only change scope |
| StructureAnalysis.StructureAnalyzer.StmtOf | src/spagettypy/analyzer/parsers/structure_analyzer.py:208-256 | the visit of one statement: records only change scope |
| StructureAnalysis.StructureAnalyzer.VisitOfStep | src/spagettypy/analyzer/parsers/structure_analyzer.py:256 | the visit of the statements from index `k` is the visit of statement `k`, then, unless it raised, the visit of the rest |
| StructureAnalysis.StructureAnalyzer.FindOrAddClass | src/spagettypy/analyzer/parsers/structure_analyzer.py:198-201 | the node and records are those of `ClassFoundOf` |
| StructureAnalysis.StructureAnalyzer.FillScope | src/spagettypy/analyzer/parsers/structure_analyzer.py:203-204 | the result and records are those of `ScopedOf` |
| StructureAnalysis.StructureAnalyzer.ResolveBase | src/spagettypy/analyzer/parsers/structure_analyzer.py:215-217 | the base is resolved by `_resolve_module` (`ModuleOf`) |
| StructureAnalysis.StructureAnalyzer.ResolveFound | src/spagettypy/analyzer/parsers/structure_analyzer.py:191-195 | a node found that is not a file goes through `ClassifiedOf` |
| StructureAnalysis.StructureAnalyzer.ResolveNew | src/spagettypy/analyzer/parsers/structure_analyzer.py:184-185 | nothing found: a new LOCAL module record named after the import, not classified, is appended |
| StructureAnalysis.StructureAnalyzer.ResolveFile | src/spagettypy/analyzer/parsers/structure_analyzer.py:188-193 | a file found: a new module record for it, with its scope classified, is appended |
| StructureAnalysis.StructureAnalyzer.AddModuleRecord | src/spagettypy/analyzer/parsers/structure_analyzer.py:184-193 | the result and records are those of `NewModuleOf` |
| StructureAnalysis.StructureAnalyzer.AddImportEdge | src/spagettypy/analyzer/parsers/structure_analyzer.py:211-212 | `add_node` then `add_edge`: exactly the IMPORTS edge from the current module to the target is set (`WithImport`) |
| StructureAnalysis.StructureAnalyzer.ImportAndLink | src/spagettypy/analyzer/parsers/structure_analyzer.py:227-231 | the IMPORTS edge from the current module and, unless the target is the base, the FROM edge to the base; no other label changes |
| StructureAnalysis.Extend | src/spagettypy/analyzer/parsers/structure_analyzer.py:266 | `setdefault(...).extend`: the key's list gets the names appended; other keys are unchanged |
| StructureAnalysis.AddGlobals | src/spagettypy/analyzer/parsers/structure_analyzer.py:264-267 | the key is present iff it was already or a `global` statement is met. Its list gains every `global` name in visiting order. Other keys are unchanged. |
| StructureAnalysis.AddGlobalsCompose | src/spagettypy/analyzer/parsers/structure_analyzer.py:264-267 | visiting `a` then `b` collects the same map as visiting `a + b` |
| StructureAnalysis.GlobalVisitor.Analyze | src/spagettypy/analyzer/parsers/base.py:16-18 | the module becomes current and the map gains the tree's `global` names |
| StructureAnalysis.GlobalVisitor.Visit | src/spagettypy/analyzer/parsers/structure_analyzer.py:264-267 | the map becomes `AddGlobals` of the old map and the statements |
| StructureAnalysis.PipelineFiles | src/spagettypy/analyzer/parsers/structure_analyzer.py:146-147 | the pipeline's file list is exactly the file nodes among edge ends, in edge order, target first |
| StructureAnalysis.AnalyzerPipeline.Run | src/spagettypy/analyzer/parsers/structure_analyzer.py:144-161 | the files are the file-filter's output on the edges at entry. The graph and records are those of `FilesOf`: each file processed gets a fresh module record named after it, holding it, with a CONTAINS edge from the file, and then the analyzers. All files are processed unless one fails. The global-name collectors' maps are those of `FilesMaps`. |
| StructureAnalysis.AnalyzerPipeline.ProcessFiles | src/spagettypy/analyzer/parsers/structure_analyzer.py:149-160 | the loop gives the state of `FilesOf` and the collectors' maps of `FilesMaps`. The processed prefix of files is paired with fresh modules in order, each linked by CONTAINS. |
| StructureAnalysis.AnalyzerPipeline.ProcessNext | src/spagettypy/analyzer/parsers/structure_analyzer.py:149-160 | one turn of the file loop: what `FilesOf` and `FilesMaps` give from file `k` is what they give from file `k + 1` after it, or its own result when it fails |
| StructureAnalysis.AnalyzerPipeline.ProcessFile | src/spagettypy/analyzer/parsers/structure_analyzer.py:151-160 | the state of `FileOf`: a new module record for the file, classified, linked by CONTAINS, then every analyzer on the parse, or `ok == false` when it cannot be parsed. The collectors' maps are those of `FileMaps`. |
| StructureAnalysis.AnalyzerPipeline.NewFileModule | src/spagettypy/analyzer/parsers/structure_analyzer.py:151-152 | the adapted module record with its classified scope is appended, and is not yet in the graph; the collectors' maps are unchanged |
| StructureAnalysis.AnalyzerPipeline.RunAnalyzers | src/spagettypy/analyzer/parsers/structure_analyzer.py:165-167 | the graph and records are those of `RunOf`: the analyzers in order, up to the first that raises. The collectors' maps are those of `RunMaps` for the analyzers that ran: each has gained the tree's `global` names once for each time it has run. |
| StructureAnalysis.AnalyzerPipeline.FileOf | src/spagettypy/analyzer/parsers/structure_analyzer.py:151-160 | one file of `__call__`: records only change scope or are appended |
| StructureAnalysis.AnalyzerPipeline.FilesOf | src/spagettypy/analyzer/parsers/structure_analyzer.py:149-160 | the file loop of `__call__`: records only change scope or are appended |
| StructureAnalysis.AnalyzerPipeline.Opened | src/spagettypy/analyzer/parsers/structure_analyzer.py:151-153 | the first steps of one file: records only change scope or are appended, and the new module record resolves |
| StructureAnalysis.AnalyzerPipeline.FileMaps | src/spagettypy/analyzer/parsers/structure_analyzer.py:151-160 | the collectors' maps after one file: unchanged when it cannot be parsed; otherwise every map only grows (names already collected stay first, no other key changes) |
| StructureAnalysis.AnalyzerPipeline.FilesMaps | src/spagettypy/analyzer/parsers/structure_analyzer.py:149-160 | the collectors' maps after the file loop: the same collectors, every map only grown |
| StructureAnalysis.RunMaps | src/spagettypy/analyzer/parsers/structure_analyzer.py:165-167 | the collectors' maps after `run`: every map only grows, and a collector that did not run keeps its map |
| StructureAnalysis.GrowsTrans | src/spagettypy/analyzer/parsers/structure_analyzer.py:264-267 | two rounds of growth of one collector's map are one round of growth |
| StructureAnalysis.AllGrowTrans | src/spagettypy/analyzer/parsers/structure_analyzer.py:264-267 | the same for all collectors' maps at once |
| StructureAnalysis.AnalyzerPipeline.LinkModule | src/spagettypy/analyzer/parsers/structure_analyzer.py:153 | exactly the CONTAINS edge from the file to the new module is added; the collectors' maps are unchanged |
| StructureAnalysis.AnalyzerPipeline.RunStructure | src/spagettypy/analyzer/parsers/structure_analyzer.py:166-167 | a structure analyzer gives the next step of `RunOf` and changes no collector's map |
| StructureAnalysis.AnalyzerPipeline.RunCollector | src/spagettypy/analyzer/parsers/structure_analyzer.py:166-167 | a global-name collector changes only its own map, by one visit of the tree |
| StructureAnalysis.RunOf | src/spagettypy/analyzer/parsers/structure_analyzer.py:165-167 | `run` from analyzer `i`: records only change scope; it runs to the end unless it stops right after a structure analyzer that raised |
| StructureAnalysis.CollectorStep | src/spagettypy/analyzer/parsers/structure_analyzer.py:166-167 | a global-name collector leaves the graph and records to the analyzers after it as they were |
| StructureAnalysis.Repeated | src/spagettypy/analyzer/parsers/structure_analyzer.py:264-267 | no visit leaves the map as it is; visits only grow it: the names already under `global_vars` stay first and no other key changes |
| StructureAnalysis.MapsStep | src/spagettypy/analyzer/parsers/structure_analyzer.py:165-167 | one more analyzer run: each collector's map is its starting map after one visit per occurrence so far |
| DirectoryParsing.FindChar | src/spagettypy/analyzer/parsers/directory_parser.py:95-96 | `str.find`: -1 iff absent, else the index of the first occurrence |
| DirectoryParsing.FixSuffix | src/spagettypy/analyzer/parsers/directory_parser.py:98-101 | the result starts with "." It equals the input iff the input already does, and is "." plus the input otherwise. |
| DirectoryParsing.FixSuffixIdempotent | src/spagettypy/analyzer/parsers/directory_parser.py:98-101 | fixing a suffix twice is fixing it once |
| DirectoryParsing.NewFormatChecker | src/spagettypy/analyzer/parsers/directory_parser.py:88-93 | a string gives one fixed suffix; any other iterable gives the set of fixed suffixes |
| DirectoryParsing.Accepts | src/spagettypy/analyzer/parsers/directory_parser.py:103-106 | an empty format is rejected. A single supported suffix accepts any substring of it (as written). A set accepts exact members. |
| DirectoryParsing.EmptyFormatRejected | src/spagettypy/analyzer/parsers/directory_parser.py:104-106 | a file without a format is never accepted |
| DirectoryParsing.ConfiguredFormatAccepted | src/spagettypy/analyzer/parsers/directory_parser.py:88-106 | a file whose format is one of the configured suffixes, fixed, is accepted |
| DirectoryParsing.PyFileAccepted | src/spagettypy/analyzer/parsers/directory_parser.py:88-106 | `main.py` passes a `.py` checker and a `[".txt", "py"]` checker |
| DirectoryParsing.SingleFormatSubstring | src/spagettypy/analyzer/parsers/directory_parser.py:89-90 | a `.pyi` checker accepts a `.py` file as written, but not with the intended test |
| DirectoryParsing.AcceptsIntended | src/spagettypy/analyzer/parsers/directory_parser.py:103-106 | corrected acceptance: a file without a format is never accepted |
| DirectoryParsing.AcceptsIntendedSpec | src/spagettypy/analyzer/parsers/directory_parser.py:103-106 | corrected checker: accepts iff the format equals one of the configured suffixes, fixed |
| DirectoryParsing.FilterOne | src/spagettypy/analyzer/parsers/directory_parser.py:181-182 | exactly the files the checker accepts, in order |
| DirectoryParsing.FilterAllSpec | src/spagettypy/analyzer/parsers/directory_parser.py:184-189 | exactly the files every checker accepts, in order; no checkers keep all files |
| DirectoryParsing.ApplyFilters | src/spagettypy/analyzer/parsers/directory_parser.py:184-189 | the loop applying checkers one after the other yields the files all checkers accept |
| DirectoryParsing.DirParts | src/spagettypy/analyzer/parsers/directory_parser.py:117 | exactly the path parts other than "." and "" |
| DirectoryParsing.SplitDirs | src/spagettypy/analyzer/parsers/directory_parser.py:116-117 | one directory node per kept part, in order |
| DirectoryParsing.SplitDirsNoDot | src/spagettypy/analyzer/parsers/directory_parser.py:117 | a key never holds the "." directory |
| DirectoryParsing.GroupKeysSpec | src/spagettypy/analyzer/parsers/directory_parser.py:125-128 | the dictionary's keys are distinct and are exactly the keys of the files |
| DirectoryParsing.GroupFiles | src/spagettypy/analyzer/parsers/directory_parser.py:125-128 | keys in first-seen order; each key's list is exactly its files in input order |
| DirectoryParsing.SortByLenSpec | src/spagettypy/analyzer/parsers/directory_parser.py:131 | sorting by length gives keys ordered by length, and the same keys |
| DirectoryParsing.SortByLenStable | src/spagettypy/analyzer/parsers/directory_parser.py:131 | the sort is stable: the keys of each length keep their order |
| DirectoryParsing.DirEdgeCases | src/spagettypy/analyzer/parsers/directory_parser.py:134-144 | an empty key has no directory edge, and its current directory is ".". A one-part key links "." to it. A longer key links its last two parts, unless they are equal. |
| DirectoryParsing.EmptyNameNotLinked | src/spagettypy/analyzer/parsers/directory_parser.py:148-156 | a file with empty name and format gets no file edge |
| DirectoryParsing.PlainFileLinked | src/spagettypy/analyzer/parsers/directory_parser.py:148-156 | a file with a plain name gets its file edge |
| DirectoryParsing.GroupsEdges | src/spagettypy/analyzer/parsers/directory_parser.py:134-156 | the edges of all groups, in any key order, are exactly the file-by-file edges |
| DirectoryParsing.SortedGroupsEdges | src/spagettypy/analyzer/parsers/directory_parser.py:131-156 | the groups in depth order give exactly the file-by-file edges |
| DirectoryParsing.FileUnderDir | src/spagettypy/analyzer/parsers/directory_parser.py:134-156 | a file in directory `d` gives the edges `.`→`d` and `d`→file |
| DirectoryParsing.ParseDirExample | src/spagettypy/analyzer/parsers/directory_parser.py:119-158 | two files in one directory give one directory edge and two file edges |
| DirectoryParsing.IntermediateDirsUnlinked | src/spagettypy/analyzer/parsers/directory_parser.py:134-144 | a file at `a/b/c` links only `b`→`c` and `c`→file, never `a` (only each key's last two parts are linked) |
| DirectoryParsing.DirectoryParser.constructor | src/spagettypy/analyzer/parsers/directory_parser.py:110-113 | keeps the checkers and the path relativiser and has no graph yet |
| DirectoryParsing.DirectoryParser.Run | src/spagettypy/analyzer/parsers/directory_parser.py:119-158 | the parser keeps and returns the given graph. Exactly the file-by-file edges of the filtered files are added, without label. Every other edge keeps its label. |
| DirectoryParsing.DirectoryParser.AttachGroups | src/spagettypy/analyzer/parsers/directory_parser.py:134-156 | the key loop adds exactly the edges of every listed group |
| DirectoryParsing.DirectoryParser.AttachGroup | src/spagettypy/analyzer/parsers/directory_parser.py:135-156 | one group adds its directory edge (if any) and its file edges |
| DirectoryParsing.DirectoryParser.AttachFiles | src/spagettypy/analyzer/parsers/directory_parser.py:147-156 | the file loop adds exactly the file edges of the group |
| DirectoryParsing.DirectoryParser.AttachFile | src/spagettypy/analyzer/parsers/directory_parser.py:148-156 | one file adds its edge iff its relative file path differs from its relative directory |
| TreeExport.PlainLabel | src/spagettypy/analyzer/exporters/tree_exporter.py:16-23 | the label of a plain path string is the string itself |
| TreeExport.DotLabel | src/spagettypy/analyzer/exporters/tree_exporter.py:19 | "." has the label "." (its `name` is empty) |
| TreeExport.ChildLabels | src/spagettypy/analyzer/exporters/tree_exporter.py:25-28 | a label never records itself or "." as a child |
| TreeExport.RecordEdges | src/spagettypy/analyzer/exporters/tree_exporter.py:15-28 | each label's list is exactly its kept child labels, in edge order. The labels with children are exactly the keys. |
| TreeExport.RecordedShape | src/spagettypy/analyzer/exporters/tree_exporter.py:25-28 | every recorded list is non-empty, and holds neither its own key nor "." |
| TreeExport.RecordedExample | src/spagettypy/analyzer/exporters/tree_exporter.py:15-28 | the edges `a→b`, `b→c` record `{a: [b], b: [c]}` |
| TreeExport.OrphansAttached | src/spagettypy/analyzer/exporters/tree_exporter.py:32-36 | after the orphans are appended to the root, every label but the root has a parent |
| TreeExport.AttachOrphans | src/spagettypy/analyzer/exporters/tree_exporter.py:32-36 | appends each parentless non-root label to the root's list exactly once (in set order) |
| TreeExport.AppendNewSpec | src/spagettypy/analyzer/exporters/tree_exporter.py:40-42 | appending only absent children keeps the old list as a prefix and keeps it repeat-free. The result holds both lists. |
| TreeExport.DotMergedSpec | src/spagettypy/analyzer/exporters/tree_exporter.py:38-42 | "." stays a key only if it is the root. Its children move into the root's list. Other keys are unchanged. |
| TreeExport.MergeDot | src/spagettypy/analyzer/exporters/tree_exporter.py:38-42 | the loop computes the merged table |
| TreeExport.RemoveFirst | src/spagettypy/analyzer/exporters/tree_exporter.py:47 | `list.remove`: one element shorter, and the same list with that element dropped |
| TreeExport.StripAll | src/spagettypy/analyzer/exporters/tree_exporter.py:45-47 | same keys; no list holds "." |
| TreeExport.StripList | src/spagettypy/analyzer/exporters/tree_exporter.py:46-47 | the `while` loop removes every "." and nothing else |
| TreeExport.StripDots | src/spagettypy/analyzer/exporters/tree_exporter.py:45-47 | the loop over the table gives the stripped table |
| TreeExport.KeyLeTotal | src/spagettypy/analyzer/exporters/tree_exporter.py:59-62 | the sort key (directories first, then lower-cased name) orders any two labels |
| TreeExport.KeyLeTrans | src/spagettypy/analyzer/exporters/tree_exporter.py:59-62 | the sort key order is transitive |
| TreeExport.SortChildrenSpec | src/spagettypy/analyzer/exporters/tree_exporter.py:59-62 | the children sorted by the key, as a permutation of the list |
| TreeExport.LinePrefixColumns | src/spagettypy/analyzer/exporters/tree_exporter.py:69 | four columns per ancestor level, a bar for a level that is not last and blanks for one that is |
| TreeExport.Lines | src/spagettypy/analyzer/exporters/tree_exporter.py:64-70 | one rendered line per entry |
| TreeExport.Walker.constructor | src/spagettypy/analyzer/exporters/tree_exporter.py:49-50 | no label visited, both counters zero |
| TreeExport.Walker.Walk | src/spagettypy/analyzer/exporters/tree_exporter.py:52-79 | the entries and the visited set are those of `WalkSpec`: a visited prefix yields nothing; otherwise it becomes visited and its sorted children follow one another, each with its own entry and then its subtree one level deeper. Its entries at this depth are its sorted children with the right last-sibling marks. Every entry below is rendered and counted: `dirs` grows by the directory entries, `files` by the rest. |
| TreeExport.Walker.Emit | src/spagettypy/analyzer/exporters/tree_exporter.py:64-78 | one child (`EmitSpec`): exactly its entry at this depth, then the walk of its subtree below it, with the counters kept in step |
| TreeExport.Walker.WalkChildren | src/spagettypy/analyzer/exporters/tree_exporter.py:64-78 | the children one after the other (`ChildrenSpec`); their entries at this depth are exactly the children with the last one flagged |
| TreeExport.WalkSpec | src/spagettypy/analyzer/exporters/tree_exporter.py:52-79 | the walk only adds labels of the table to the visited set |
| TreeExport.NestedListing | src/spagettypy/analyzer/exporters/tree_exporter.py:52-79 | for the table `r: [a]`, `a: [x]` the listing is `a` at depth 0 followed by `x` at depth 1, never the other way round |
| TreeExport.TreeDirectoryExporter.constructor | src/spagettypy/analyzer/exporters/tree_exporter.py:8-9 | keeps the root label |
| TreeExport.TreeDirectoryExporter.Export | src/spagettypy/analyzer/exporters/tree_exporter.py:11-89 | the table is the recorded edges, with the orphans attached, "." merged and stripped. The entries are the depth-first `Listing` of that table from the root. The output is the rendered entries joined by newlines, plus the summary with the file and directory counts. No entry is "." or parentless. |
| TreeExport.BuildTable | src/spagettypy/analyzer/exporters/tree_exporter.py:30-47 | the table after orphans, the "." merge and the strip |
| TreeExport.Render | src/spagettypy/analyzer/exporters/tree_exporter.py:49-89 | the entries are the depth-first `Listing` from the root, and the output renders them and counts as in `Export` |
| TreeExport.NoDotStart | src/spagettypy/analyzer/exporters/tree_exporter.py:81-84 | after stripping, the start node is always the root |
| TreeExport.RenderedLines | src/spagettypy/analyzer/exporters/tree_exporter.py:64-89 | the walk's lines are the entries rendered; its counters are the directory entries and the rest |

## Left out

- `ModuleFileFinder` (`find_spec`, `rglob`) is not part of this model. It becomes the parameter `findPath`, and `Path.exists` becomes `fileExists`.
- `ast.parse` and file reading become the parameter `parse`. `ast.NodeVisitor` becomes the `Stmt` datatype: only imports, class definitions, `global` and nested bodies are distinguished.
- `ReferenceAnalyzer` and the function, call and attribute analysis are not part of this model. They need the full syntax tree.
- `GitFinder`, `GitignoreFileChecker` and `GitExcludeFileChecker` are not modelled: they call `pygit2`. Checkers are arbitrary `FileInfo -> bool` parameters.
- `parse_directory` walks the file system; the walked files are the parameter `walked`. `_rel` (with `base_path.resolve()`) is the parameter `rel`.
- `Path.resolve()` of the finder's and the parser's roots is not modelled (no symbolic links or `..`).
- `GraphX.show_summary`, `__repr__`, `descendants` and `ancestors` are left out, as are the mermaid exporter, the CLI and the interface protocols. None of them is part of the graph-building core.
- Graph.GraphX.Parents: states which predecessors are listed, not networkx's order (the order edges arrived in).
- Graph.GraphX.Subgraph: states the copy's node set and labelled edges, and takes its node order from this graph. networkx gives that order only when at least half of this graph's nodes are kept; when fewer are kept (`2 * len(set(nodes)) < len(graph)`), it iterates the kept set, whose order the model does not capture. The order of each node's successors in the copy is not stated.
- Graph.GraphX.CopyNodes: the same node order as `Subgraph`, with the same caveat about fewer than half of the nodes kept.
- Strings.Lower: lowers ASCII letters only; Python's `str.lower` also lowers other scripts.
- Model.ModuleRepr: states only the beginning of the dataclass `repr`. The quoting of the file and path fields is not modelled.
- StructureAnalysis.StructureAnalyzer.OpenClass: stores the corrected class record `ClassRecord`, with the decorators, where `visit_ClassDef` stores the record without them (see "## Findings"); the record as written is `Classifiers.ClassRecordAsWritten`.
- StructureAnalysis.StructureAnalyzer.DefineClass: stores the corrected class record, as `OpenClass` does, so a `@dataclass` class is DATACLASS where the code gives NORMAL.
- StructureAnalysis.StructureAnalyzer.VisitImport: the state functions (`ImportsOf`, `VisitOf`, `RunOf` and the rest) give the graph's node list and labels, not the order of each node's successor list.
- `ModuleInfo` and `ClassInfo` are non-frozen `@dataclass(slots=True)` classes (`model.py:38-53`): Python compares them field by field and cannot hash them, so adding one to a networkx graph raises `TypeError`. The model refers to records by identity (their index in the record store) and does not model that error.
- StructureAnalysis.StructureAnalyzer.Visit: requires a current module. `analyze` always sets one before visiting, and a visit without one raises in Python.
- StructureAnalysis.AnalyzerPipeline.Run: requires every structure analyzer to share the pipeline's graph and record store. Analyzers that write into another graph are not modelled.
- DirectoryParsing.DirectoryParser.Run: states the edges added and their labels, not the order in which new nodes enter the graph.
- TreeExport.SortChildrenSpec: states sortedness and permutation, not the stability of Python's `sorted` among equal keys.
- TreeExport.AttachOrphans: appends the orphans in an arbitrary order (Python set iteration), and the model states only that each is appended once.
- The unused `depth` parameter of `_walk` is left out.
- Directories are identified by their last path segment in the exported tree, as in the code. Two directories with the same name share one table entry.
- DirectoryParsing.ParseDirExample: is stated for any plain directory and file names, not for one fixed file listing.
- TreeExport.RecordedExample: is stated for any three plain labels, not for one fixed graph.

## Findings

| source | as written | input that shows it | evidently intended | confidence | as-written member | corrected member |
|---|---|---|---|---|---|---|
| src/spagettypy/analyzer/model.py:54-56 | `qualname` formats the whole `ModuleInfo` record, i.e. its dataclass `repr` | class `A` in module `mod` gives `ModuleInfo(name='mod', ...).A` | `mod.A` (module name, ".", class name) | not executed | Model.ClassQualnameAsWritten | Model.ClassQualname |
| src/spagettypy/analyzer/parsers/structure_analyzer.py:242-248 | `visit_ClassDef` builds the class record without the decorators. The class-kind classifier (line 116) reads `decorators` from that record. | `@dataclass class Point: ...` is classified NORMAL | DATACLASS for a class decorated `@dataclass` | not executed | Classifiers.ClassRecordAsWritten | Classifiers.ClassRecord |
| src/spagettypy/analyzer/parsers/directory_parser.py:89-90 | a single format is kept as a string, so `file.format in self.support_format` (line 105) is a substring test | a `.pyi` checker accepts `a.py` | accept exactly the configured suffix | not executed | DirectoryParsing.Accepts | DirectoryParsing.AcceptsIntended |
