/**
 * The directory parser: the format checker, the checker chain that filters
 * the walked files, and the grouping of files by directory that adds
 * directory→directory and directory→file edges to the graph.
 *
 * The filesystem walk and the relativisation of paths against the base path
 * are not modelled: the walked files are an input, and `_rel` is a parameter
 * `rel` of the parser.
 */
module DirectoryParsing {
  import opened Wrappers
  import opened Paths
  import opened Model
  import opened Graph
  import opened Filters
  import Strings

  // ---------------------------------------------------------------------
  // FormatFileChecker

  /** Python `s.find(c)`: the index of the first `c`, or -1. */
  function FindChar(s: string, c: char): (r: int)
    ensures -1 <= r < |s|
    ensures r == -1 <==> c !in s
    ensures r >= 0 ==> s[r] == c && c !in s[..r]
  {
    if s == [] then -1
    else if s[0] == c then 0
    else
      var k := FindChar(s[1..], c);
      assert s[1..][..k + 1] == s[1..k + 2] && s[..k + 2] == [s[0]] + s[1..k + 2];
      if k == -1 then -1 else k + 1
  }

  /** `_is_suffix`: the first "." is at index 0. */
  predicate IsSuffix(s: string) {
    FindChar(s, '.') == 0
  }

  /** `_fix_suffix`: a string not starting with "." gets one in front; one that does is kept. */
  function FixSuffix(s: string): (r: string)
    ensures |r| > 0 && r[0] == '.'
    ensures r == s <==> |s| > 0 && s[0] == '.'
    ensures r != s ==> r[1..] == s
  {
    if IsSuffix(s) then s else "." + s
  }

  /** Fixing a fixed suffix changes nothing. */
  lemma FixSuffixIdempotent(s: string)
    ensures FixSuffix(FixSuffix(s)) == FixSuffix(s)
  {
  }

  /** How the checker was configured: one format string, or an iterable of them. */
  datatype FormatArg = OneFormat(format: string) | ManyFormats(formats: seq<string>)

  /**
   * The stored `support_format`: a single string stays a string (so the
   * check is the substring test), an iterable becomes a set.
   */
  datatype FormatChecker = SupportString(support: string) | SupportSet(supports: set<string>)

  /** `FormatFileChecker(format)`: every supported format is fixed to start with ".". */
  function NewFormatChecker(arg: FormatArg): (c: FormatChecker)
    ensures c.SupportString? <==> arg.OneFormat?
    ensures c.SupportString? ==> c.support == FixSuffix(arg.format)
    ensures c.SupportSet? ==> forall s :: s in c.supports <==> exists x | x in arg.formats :: s == FixSuffix(x)
  {
    match arg
    case OneFormat(s) => SupportString(FixSuffix(s))
    case ManyFormats(xs) => SupportSet(set x | x in xs :: FixSuffix(x))
  }

  /** `FormatFileChecker.__call__` as written: an empty format is refused, otherwise `file.format in support_format`. */
  function Accepts(c: FormatChecker, file: FileInfo): (r: bool)
    ensures r ==> file.format != ""
    ensures c.SupportString? ==> (r <==> file.format != "" && Strings.ContainsSub(c.support, file.format))
    ensures c.SupportSet? ==> (r <==> file.format != "" && file.format in c.supports)
  {
    if file.format == "" then false
    else match c
      case SupportString(s) => Strings.Contains(s, file.format)
      case SupportSet(fs) => file.format in fs
  }

  /** A file with an empty format is refused by every checker. */
  lemma EmptyFormatRejected(arg: FormatArg, file: FileInfo)
    requires file.format == ""
    ensures !Accepts(NewFormatChecker(arg), file)
  {
  }

  /** A file whose format is one of the configured formats, fixed, is accepted. */
  lemma ConfiguredFormatAccepted(arg: FormatArg, file: FileInfo)
    requires arg.OneFormat? ==> file.format == FixSuffix(arg.format)
    requires arg.ManyFormats? ==> exists x | x in arg.formats :: file.format == FixSuffix(x)
    ensures Accepts(NewFormatChecker(arg), file)
  {
    if arg.OneFormat? {
      assert Strings.OccursAt(file.format, file.format, 0);
    }
  }

  /** `FormatFileChecker(".py")` and `FormatFileChecker([".txt", "py"])` both accept `main.py`. */
  lemma PyFileAccepted()
    ensures Accepts(NewFormatChecker(OneFormat(".py")), FileInfo("main", ".py", Path([]), false))
    ensures Accepts(NewFormatChecker(ManyFormats([".txt", "py"])), FileInfo("main", ".py", Path([]), false))
  {
    ConfiguredFormatAccepted(OneFormat(".py"), FileInfo("main", ".py", Path([]), false));
    assert FixSuffix("py") == ".py";
    ConfiguredFormatAccepted(ManyFormats([".txt", "py"]), FileInfo("main", ".py", Path([]), false));
  }

  /**
   * The single-format checker as written tests substring containment, so a
   * checker configured with ".pyi" also accepts ".py" files.
   */
  lemma SingleFormatSubstring()
    ensures Accepts(NewFormatChecker(OneFormat(".pyi")), FileInfo("a", ".py", Path([]), false))
    ensures !AcceptsIntended(NewFormatChecker(OneFormat(".pyi")), FileInfo("a", ".py", Path([]), false))
  {
    assert Strings.OccursAt(".pyi", ".py", 0);
  }

  /** The check the checker evidently intends: the format equals a configured format. */
  function AcceptsIntended(c: FormatChecker, file: FileInfo): (r: bool)
    ensures r ==> file.format != ""
  {
    file.format != "" &&
    match c
    case SupportString(s) => file.format == s
    case SupportSet(fs) => file.format in fs
  }

  /** The intended check accepts exactly the files whose format is one of the configured formats, fixed. */
  lemma AcceptsIntendedSpec(arg: FormatArg, file: FileInfo)
    ensures AcceptsIntended(NewFormatChecker(arg), file) <==>
      match arg
      case OneFormat(s) => file.format == FixSuffix(s)
      case ManyFormats(xs) => exists x | x in xs :: file.format == FixSuffix(x)
  {
  }

  // ---------------------------------------------------------------------
  // The checker chain

  /** A file checker: any callable from a file to a boolean. */
  type Checker = FileInfo -> bool

  /** Every checker of the chain accepts `f`. */
  predicate PassesAll(checkers: seq<Checker>, f: FileInfo) {
    forall i | 0 <= i < |checkers| :: checkers[i](f)
  }

  /** The files every checker accepts, in their order. */
  function FilterAll(checkers: seq<Checker>, files: seq<FileInfo>): seq<FileInfo> {
    Keep(files, f => PassesAll(checkers, f))
  }

  /** `apply_filters` keeps exactly the files every checker accepts, in order; no checkers keep all. */
  lemma FilterAllSpec(checkers: seq<Checker>, files: seq<FileInfo>)
    ensures forall f :: f in FilterAll(checkers, files) <==> f in files && forall i | 0 <= i < |checkers| :: checkers[i](f)
    ensures SubseqOf(FilterAll(checkers, files), files)
    ensures checkers == [] ==> FilterAll(checkers, files) == files
  {
    KeepSubseq(files, f => PassesAll(checkers, f));
    if checkers == [] {
      KeepAll(files, f => PassesAll(checkers, f));
    }
  }

  /** Selecting twice is selecting once by the conjunction. */
  lemma {:induction false} KeepKeep<T(!new)>(xs: seq<T>, p: T -> bool, q: T -> bool, pq: T -> bool)
    requires forall x :: pq(x) == (p(x) && q(x))
    ensures Keep(Keep(xs, p), q) == Keep(xs, pq)
  {
    if xs != [] {
      KeepKeep(xs[1..], p, q, pq);
    }
  }

  /** `_filter(checker, files)`: the files the checker accepts, in order. */
  function FilterOne(checker: Checker, files: seq<FileInfo>): (r: seq<FileInfo>)
    ensures forall f :: f in r <==> f in files && checker(f)
    ensures SubseqOf(r, files)
  {
    KeepSubseq(files, checker);
    Keep(files, checker)
  }

  /** `apply_filters`: each checker in turn narrows the list. */
  method ApplyFilters(checkers: seq<Checker>, files: seq<FileInfo>) returns (r: seq<FileInfo>)
    ensures r == FilterAll(checkers, files)
  {
    if checkers == [] {
      FilterAllSpec(checkers, files);
      return files;
    }
    r := files;
    KeepAll(files, f => PassesAll(checkers[..0], f));
    for k := 0 to |checkers|
      invariant r == FilterAll(checkers[..k], files)
    {
      KeepKeep(files, f => PassesAll(checkers[..k], f), checkers[k], f => PassesAll(checkers[..k + 1], f));
      r := FilterOne(checkers[k], r);
    }
    assert checkers[..|checkers|] == checkers;
  }

  // ---------------------------------------------------------------------
  // Directory keys

  /** The parts `_split_dirs` keeps: all but "." and "", in order. */
  function DirParts(parts: seq<string>): (r: seq<string>)
    ensures forall s | s in r :: s in parts && s != "." && s != ""
    ensures forall s | s in parts && s != "." && s != "" :: s in r
  {
    if parts == [] then []
    else if parts[0] == "." || parts[0] == "" then DirParts(parts[1..])
    else [parts[0]] + DirParts(parts[1..])
  }

  /** Keeping parts distributes over concatenation, so the kept parts stay in their order. */
  lemma {:induction false} DirPartsAppend(a: seq<string>, b: seq<string>)
    ensures DirParts(a + b) == DirParts(a) + DirParts(b)
  {
    if a != [] {
      assert (a + b)[0] == a[0] && (a + b)[1..] == a[1..] + b;
      DirPartsAppend(a[1..], b);
    } else {
      assert a + b == b;
    }
  }

  /** The directory node for one path part. */
  function DirOf(part: string): DirectoryNode {
    DirectoryNode(Path([part]))
  }

  /** `_split_dirs(rel_path)`: one directory node per kept part. */
  function SplitDirs(relDir: Path): (r: seq<DirectoryNode>)
    ensures |r| == |DirParts(relDir.parts)|
    ensures forall i | 0 <= i < |r| :: r[i] == DirOf(DirParts(relDir.parts)[i])
  {
    var parts := DirParts(relDir.parts);
    seq(|parts|, i requires 0 <= i < |parts| => DirOf(parts[i]))
  }

  /** The directory `Path(".")`, whose parts are empty. */
  const Dot := DirectoryNode(Path([]))

  /** No directory node of a key is the "." directory. */
  lemma SplitDirsNoDot(relDir: Path)
    ensures Dot !in SplitDirs(relDir)
  {
    var r := SplitDirs(relDir);
    forall i | 0 <= i < |r| ensures r[i] != Dot {
      assert r[i].path.parts == [DirParts(relDir.parts)[i]];
    }
  }

  // ---------------------------------------------------------------------
  // `sorted(keys, key=len)`, a stable sort by length

  /** The elements of length `n`, in order. */
  function OfLength<T(==,!new)>(ks: seq<seq<T>>, n: nat): (r: seq<seq<T>>)
    ensures forall k | k in r :: |k| == n
  {
    Keep(ks, LenIs(n))
  }

  /** The test "has length `n`". */
  function LenIs<T>(n: nat): seq<T> -> bool {
    k => |k| == n
  }

  /** The elements of the lengths `lo`, `lo + 1`, …, `hi - 1`, length by length. */
  function Buckets<T(==,!new)>(ks: seq<seq<T>>, lo: nat, hi: nat): (r: seq<seq<T>>)
    ensures forall k | k in r :: lo <= |k| < hi
    decreases hi - lo
  {
    if lo >= hi then [] else OfLength(ks, lo) + Buckets(ks, lo + 1, hi)
  }

  function MaxLen<T>(ks: seq<seq<T>>): (m: nat)
    ensures forall k | k in ks :: |k| <= m
  {
    if ks == [] then 0
    else
      var m := MaxLen(ks[1..]);
      assert forall k | k in ks :: k == ks[0] || k in ks[1..];
      if |ks[0]| > m then |ks[0]| else m
  }

  /** Python's `sorted(ks, key=len)`: shorter first, equal lengths in their original order. */
  function SortByLen<T(==,!new)>(ks: seq<seq<T>>): seq<seq<T>> {
    Buckets(ks, 0, MaxLen(ks) + 1)
  }

  predicate SortedByLen<T>(ks: seq<seq<T>>) {
    forall i, j | 0 <= i < j < |ks| :: |ks[i]| <= |ks[j]|
  }

  lemma {:induction false} BucketsSorted<T(!new)>(ks: seq<seq<T>>, lo: nat, hi: nat)
    ensures SortedByLen(Buckets(ks, lo, hi))
    decreases hi - lo
  {
    if lo < hi {
      BucketsSorted(ks, lo + 1, hi);
      var a, b := OfLength(ks, lo), Buckets(ks, lo + 1, hi);
      var r := a + b;
      forall i, j | 0 <= i < j < |r| ensures |r[i]| <= |r[j]| {
        if j < |a| {
          assert r[i] in a && r[j] in a;
        } else if i < |a| {
          assert r[i] in a && r[j] in b;
        } else {
          assert r[i] == b[i - |a|] && r[j] == b[j - |a|];
        }
      }
    }
  }

  lemma {:induction false} BucketsMembers<T(!new)>(ks: seq<seq<T>>, lo: nat, hi: nat)
    ensures forall k :: k in Buckets(ks, lo, hi) <==> k in ks && lo <= |k| < hi
    decreases hi - lo
  {
    if lo < hi {
      BucketsMembers(ks, lo + 1, hi);
      var a, b := OfLength(ks, lo), Buckets(ks, lo + 1, hi);
      assert Buckets(ks, lo, hi) == a + b;
      forall k ensures k in a <==> k in ks && |k| == lo {
        assert LenIs<T>(lo)(k) <==> |k| == lo;
      }
    }
  }

  /** Selecting one length from a run of buckets gives that length's bucket of the input. */
  lemma {:induction false} BucketsOfLength<T(!new)>(ks: seq<seq<T>>, lo: nat, hi: nat, n: nat)
    ensures OfLength(Buckets(ks, lo, hi), n) == if lo <= n < hi then OfLength(ks, n) else []
    decreases hi - lo
  {
    if lo < hi {
      var a, b := OfLength(ks, lo), Buckets(ks, lo + 1, hi);
      assert Buckets(ks, lo, hi) == a + b;
      BucketsOfLength(ks, lo + 1, hi, n);
      assert OfLength(b, n) == if lo + 1 <= n < hi then OfLength(ks, n) else [];
      KeepConcat(a, b, LenIs(n));
      assert OfLength(a + b, n) == OfLength(a, n) + OfLength(b, n);
      if n == lo {
        KeepAll(a, LenIs(n));
        assert OfLength(a, n) == a;
      } else {
        KeepNone(a, LenIs(n));
        assert OfLength(a, n) == [];
      }
    } else {
      KeepNone(Buckets(ks, lo, hi), LenIs(n));
    }
  }

  /** The sort orders by length and holds the same elements. */
  lemma SortByLenSpec<T(!new)>(ks: seq<seq<T>>)
    ensures SortedByLen(SortByLen(ks))
    ensures forall k :: k in SortByLen(ks) <==> k in ks
  {
    BucketsSorted(ks, 0, MaxLen(ks) + 1);
    BucketsMembers(ks, 0, MaxLen(ks) + 1);
  }

  /** The sort is stable: it lists the elements of each length exactly as the input does. */
  lemma SortByLenStable<T(!new)>(ks: seq<seq<T>>, n: nat)
    ensures OfLength(SortByLen(ks), n) == OfLength(ks, n)
  {
    var m := MaxLen(ks) + 1;
    assert SortByLen(ks) == Buckets(ks, 0, m);
    BucketsOfLength(ks, 0, m, n);
    if n >= m {
      forall k | k in ks ensures !LenIs<T>(n)(k) {
        assert |k| < m;
      }
      KeepNone(ks, LenIs(n));
      assert OfLength(ks, n) == [];
    }
  }

  // ---------------------------------------------------------------------
  // Grouping files by directory

  /** A group key: the directory nodes of a file's relative directory. */
  type Key = seq<DirectoryNode>

  /** `_rel`: how the parser relativises a path against its base path. */
  type Rel = Path -> Path

  /** The key a file is grouped under. */
  function KeyOf(rel: Rel, f: FileInfo): Key {
    SplitDirs(rel(f.path))
  }

  /** The test "is grouped under `k`". */
  function KeyIs(rel: Rel, k: Key): FileInfo -> bool {
    f => KeyOf(rel, f) == k
  }

  /** The keys of `tree_map`, in the order `setdefault` first inserted them. */
  function GroupKeys(rel: Rel, files: seq<FileInfo>): seq<Key> {
    if files == [] then []
    else
      var ks := GroupKeys(rel, files[..|files| - 1]);
      var k := KeyOf(rel, files[|files| - 1]);
      if k in ks then ks else ks + [k]
  }

  /** The group keys are the keys of the files, each listed once. */
  lemma {:induction false} GroupKeysSpec(rel: Rel, files: seq<FileInfo>)
    ensures Distinct(GroupKeys(rel, files))
    ensures forall k :: k in GroupKeys(rel, files) <==> exists f | f in files :: KeyOf(rel, f) == k
  {
    if files != [] {
      var init := files[..|files| - 1];
      GroupKeysSpec(rel, init);
      assert files == init + [files[|files| - 1]];
      forall f | f in files ensures KeyOf(rel, f) in GroupKeys(rel, files) {
        if f != files[|files| - 1] {
          assert f in init;
        }
      }
    }
  }

  /** `groups` and its key order `keys` are `tree_map` after the files `files`. */
  ghost predicate Grouped(rel: Rel, files: seq<FileInfo>, keys: seq<Key>, groups: map<Key, seq<FileInfo>>) {
    && keys == GroupKeys(rel, files)
    && (forall k :: k in groups <==> k in keys)
    && (forall k | k in groups :: groups[k] == Keep(files, KeyIs(rel, k)))
  }

  /** `tree_map.setdefault(key, []).append(f)` keeps the grouping in step with one more file. */
  lemma GroupStep(rel: Rel, files: seq<FileInfo>, i: nat, keys: seq<Key>, groups: map<Key, seq<FileInfo>>)
    requires i < |files| && Grouped(rel, files[..i], keys, groups)
    ensures Grouped(rel, files[..i + 1], NextKeys(KeyOf(rel, files[i]), keys, groups), NextGroups(KeyOf(rel, files[i]), groups, files[i]))
  {
    var f := files[i];
    var pre := files[..i];
    assert files[..i + 1] == pre + [f];
    GroupKeysSnoc(rel, pre, f);
    forall k ensures Keep(pre + [f], KeyIs(rel, k)) == Keep(pre, KeyIs(rel, k)) + (if KeyOf(rel, f) == k then [f] else []) {
      KeepSnocKey(rel, pre, f, k);
    }
    if KeyOf(rel, f) !in groups {
      GroupKeysSpec(rel, pre);
      KeepNone(pre, KeyIs(rel, KeyOf(rel, f)));
    }
  }

  lemma GroupKeysSnoc(rel: Rel, pre: seq<FileInfo>, f: FileInfo)
    ensures GroupKeys(rel, pre + [f]) == if KeyOf(rel, f) in GroupKeys(rel, pre) then GroupKeys(rel, pre) else GroupKeys(rel, pre) + [KeyOf(rel, f)]
  {
    assert (pre + [f])[..|pre|] == pre;
  }

  lemma KeepSnocKey(rel: Rel, pre: seq<FileInfo>, f: FileInfo, k: Key)
    ensures Keep(pre + [f], KeyIs(rel, k)) == Keep(pre, KeyIs(rel, k)) + (if KeyOf(rel, f) == k then [f] else [])
  {
    KeepConcat(pre, [f], KeyIs(rel, k));
    assert [f][1..] == [];
  }

  /** The key order after `setdefault(key, ...)`. */
  function NextKeys(key: Key, keys: seq<Key>, groups: map<Key, seq<FileInfo>>): seq<Key> {
    if key in groups then keys else keys + [key]
  }

  /** The groups after `setdefault(key, []).append(f)`. */
  function NextGroups(key: Key, groups: map<Key, seq<FileInfo>>, f: FileInfo): map<Key, seq<FileInfo>> {
    groups[key := if key in groups then groups[key] + [f] else [f]]
  }

  /**
   * The grouping loop of `DirectoryParser.__call__`: `tree_map.setdefault(key,
   * []).append(f)` for every file, in order.
   */
  method GroupFiles(rel: Rel, files: seq<FileInfo>) returns (keys: seq<Key>, groups: map<Key, seq<FileInfo>>)
    ensures Grouped(rel, files, keys, groups)
  {
    keys, groups := [], map[];
    for i := 0 to |files|
      invariant Grouped(rel, files[..i], keys, groups)
    {
      var key := KeyOf(rel, files[i]);
      GroupStep(rel, files, i, keys, groups);
      keys, groups := NextKeys(key, keys, groups), NextGroups(key, groups, files[i]);
    }
    assert files[..|files|] == files;
  }

  /** The group keys, sorted by depth, still name every group, and their groups' edges are the file-by-file edges. */
  lemma SortedGroupsEdges(rel: Rel, files: seq<FileInfo>, keys: seq<Key>, groups: map<Key, seq<FileInfo>>)
    requires Grouped(rel, files, keys, groups)
    ensures forall k | k in SortByLen(keys) :: k in groups
    ensures KeysEdges(rel, SortByLen(keys), groups) == ParsedEdges(rel, files)
  {
    GroupKeysSpec(rel, files);
    SortByLenSpec(keys);
    GroupsEdges(rel, files, SortByLen(keys), groups);
  }

  // ---------------------------------------------------------------------
  // The edges the parser adds

  /** The directory a group's files hang from: the key's last node, or "." for the root group. */
  function Current(key: Key): DirectoryNode {
    if key == [] then Dot else key[|key| - 1]
  }

  /** The parent the group's directory is linked from: the key's second-to-last node, or ".". */
  function Parent(key: Key): DirectoryNode {
    if |key| >= 2 then key[|key| - 2] else Dot
  }

  /** `parent_dir != current_dir`: the group adds a directory edge. */
  predicate HasDirEdge(key: Key) {
    Parent(key) != Current(key)
  }

  function DirEdge(key: Key): (Node, Node) {
    (DirNode(Parent(key)), DirNode(Current(key)))
  }

  /** The file node the parser builds: same name, format and exclusion flag, relative directory path. */
  function Relocated(rel: Rel, f: FileInfo): FileInfo {
    FileInfo(f.name, f.format, rel(f.path), f.isExclude)
  }

  /** `rel_file != _rel(f.path)`: the file's own path differs from its directory's. */
  predicate Linked(rel: Rel, f: FileInfo) {
    rel(Div(f.path, f.name + f.format)) != rel(f.path)
  }

  function FileEdge(rel: Rel, key: Key, f: FileInfo): (Node, Node) {
    (DirNode(Current(key)), FileNode(Relocated(rel, f)))
  }

  /** The file edges of one group, file by file. */
  function GroupFileEdges(rel: Rel, key: Key, group: seq<FileInfo>): set<(Node, Node)> {
    if group == [] then {}
    else
      var f := group[|group| - 1];
      GroupFileEdges(rel, key, group[..|group| - 1]) + (if Linked(rel, f) then {FileEdge(rel, key, f)} else {})
  }

  lemma {:induction false} GroupFileEdgesMem(rel: Rel, key: Key, group: seq<FileInfo>)
    ensures forall e :: e in GroupFileEdges(rel, key, group) <==> exists f | f in group :: Linked(rel, f) && e == FileEdge(rel, key, f)
  {
    if group != [] {
      var init := group[..|group| - 1];
      GroupFileEdgesMem(rel, key, init);
      assert group == init + [group[|group| - 1]];
    }
  }

  /** The edges one group adds: its directory edge, if any, and its file edges. */
  function KeyEdges(rel: Rel, key: Key, group: seq<FileInfo>): set<(Node, Node)> {
    (if HasDirEdge(key) then {DirEdge(key)} else {}) + GroupFileEdges(rel, key, group)
  }

  /** The edges of the groups `keys`, in order. */
  function KeysEdges(rel: Rel, keys: seq<Key>, groups: map<Key, seq<FileInfo>>): set<(Node, Node)>
    requires forall k | k in keys :: k in groups
  {
    if keys == [] then {}
    else
      var k := keys[|keys| - 1];
      KeysEdges(rel, keys[..|keys| - 1], groups) + KeyEdges(rel, k, groups[k])
  }

  lemma {:induction false} KeysEdgesMem(rel: Rel, keys: seq<Key>, groups: map<Key, seq<FileInfo>>)
    requires forall k | k in keys :: k in groups
    ensures forall e :: e in KeysEdges(rel, keys, groups) <==> exists k | k in keys :: e in KeyEdges(rel, k, groups[k])
  {
    if keys != [] {
      var init := keys[..|keys| - 1];
      KeysEdgesMem(rel, init, groups);
      assert keys == init + [keys[|keys| - 1]];
    }
  }

  /**
   * The edges a parse adds, stated file by file: for every file, the
   * directory edge of its group (when parent and directory differ) and, when
   * its own path differs from its directory's, an edge from the group's
   * directory to the relocated file.
   */
  ghost function ParsedEdges(rel: Rel, files: seq<FileInfo>): set<(Node, Node)> {
    (set f | f in files && HasDirEdge(KeyOf(rel, f)) :: DirEdge(KeyOf(rel, f)))
    + (set f | f in files && Linked(rel, f) :: FileEdge(rel, KeyOf(rel, f), f))
  }

  /** Processing every group, in any order of the keys, adds exactly the file-by-file edges. */
  lemma GroupsEdges(rel: Rel, files: seq<FileInfo>, keys: seq<Key>, groups: map<Key, seq<FileInfo>>)
    requires forall k :: k in keys <==> exists f | f in files :: KeyOf(rel, f) == k
    requires forall k | k in keys :: k in groups && groups[k] == Keep(files, KeyIs(rel, k))
    ensures KeysEdges(rel, keys, groups) == ParsedEdges(rel, files)
  {
    KeysEdgesMem(rel, keys, groups);
    forall e | e in KeysEdges(rel, keys, groups) ensures e in ParsedEdges(rel, files) {
      var k :| k in keys && e in KeyEdges(rel, k, groups[k]);
      var f0 :| f0 in files && KeyOf(rel, f0) == k;
      KeyEdgeParsed(rel, files, f0, groups[k], e);
    }
    forall e | e in ParsedEdges(rel, files) ensures e in KeysEdges(rel, keys, groups) {
      var f :| f in files && ((HasDirEdge(KeyOf(rel, f)) && e == DirEdge(KeyOf(rel, f))) || (Linked(rel, f) && e == FileEdge(rel, KeyOf(rel, f), f)));
      var k := KeyOf(rel, f);
      assert k in keys;
      FileEdgeInGroup(rel, files, f, groups[k]);
    }
  }

  /** An edge of the group of `f0`'s key is an edge some file of the parse adds. */
  lemma KeyEdgeParsed(rel: Rel, files: seq<FileInfo>, f0: FileInfo, group: seq<FileInfo>, e: (Node, Node))
    requires f0 in files && group == Keep(files, KeyIs(rel, KeyOf(rel, f0)))
    requires e in KeyEdges(rel, KeyOf(rel, f0), group)
    ensures e in ParsedEdges(rel, files)
  {
    var k := KeyOf(rel, f0);
    GroupFileEdgesMem(rel, k, group);
    if !(HasDirEdge(k) && e == DirEdge(k)) {
      var f :| f in group && Linked(rel, f) && e == FileEdge(rel, k, f);
      assert f in files && KeyOf(rel, f) == k;
    }
  }

  /** The edges a file adds are edges of its group. */
  lemma FileEdgeInGroup(rel: Rel, files: seq<FileInfo>, f: FileInfo, group: seq<FileInfo>)
    requires f in files && group == Keep(files, KeyIs(rel, KeyOf(rel, f)))
    ensures HasDirEdge(KeyOf(rel, f)) ==> DirEdge(KeyOf(rel, f)) in KeyEdges(rel, KeyOf(rel, f), group)
    ensures Linked(rel, f) ==> FileEdge(rel, KeyOf(rel, f), f) in KeyEdges(rel, KeyOf(rel, f), group)
  {
    GroupFileEdgesMem(rel, KeyOf(rel, f), group);
    assert f in group;
  }

  /**
   * The directory edge of a file's group: none for the root group; from "."
   * at depth one, where it is always added; from the second-to-last
   * directory deeper down, unless the two last directories have the same
   * name.
   */
  lemma DirEdgeCases(rel: Rel, f: FileInfo)
    ensures var key := KeyOf(rel, f);
      && (key == [] ==> !HasDirEdge(key) && Current(key) == Dot)
      && (|key| == 1 ==> HasDirEdge(key) && DirEdge(key) == (DirNode(Dot), DirNode(key[0])))
      && (|key| >= 2 ==>
            (HasDirEdge(key) <==> key[|key| - 2] != key[|key| - 1])
            && DirEdge(key) == (DirNode(key[|key| - 2]), DirNode(key[|key| - 1])))
  {
    SplitDirsNoDot(rel(f.path));
    var key := KeyOf(rel, f);
    if |key| == 1 {
      assert key[0] in key;
    }
  }

  /** A file whose name and format are both empty has its directory's path and gets no edge. */
  lemma EmptyNameNotLinked(rel: Rel, f: FileInfo)
    requires f.name + f.format == ""
    ensures !Linked(rel, f)
  {
    assert Strings.Split("", '/') == [""];
    assert Segments("") == [];
    assert f.path.parts + [] == f.path.parts;
  }

  /** With the identity `_rel`, a file with a plain non-empty file name always gets its edge. */
  lemma PlainFileLinked(f: FileInfo)
    requires PlainFileName(f)
    ensures Linked(p => p, f)
  {
    var s := f.name + f.format;
    Strings.SplitNoSep(s, '/');
    assert DropDots([s]) == [s];
    assert Anchor(s) == "";
    assert |Div(f.path, s).parts| == |f.path.parts| + 1;
  }

  /** A directory part the parser keeps: neither empty nor ".". */
  predicate KeptPart(d: string) {
    d != "" && d != "."
  }

  /** A file name that is one plain path segment. */
  predicate PlainFileName(f: FileInfo) {
    f.name + f.format != "" && f.name + f.format != "." && '/' !in f.name + f.format
  }

  /** The edges one file contributes to a parse. */
  function FileEdges(rel: Rel, f: FileInfo): set<(Node, Node)> {
    (if HasDirEdge(KeyOf(rel, f)) then {DirEdge(KeyOf(rel, f))} else {})
    + (if Linked(rel, f) then {FileEdge(rel, KeyOf(rel, f), f)} else {})
  }

  lemma ParsedEdgesOne(rel: Rel, a: FileInfo)
    ensures ParsedEdges(rel, [a]) == FileEdges(rel, a)
  {
  }

  lemma ParsedEdgesPair(rel: Rel, a: FileInfo, b: FileInfo)
    ensures ParsedEdges(rel, [a, b]) == FileEdges(rel, a) + FileEdges(rel, b)
  {
  }

  /** A file directly under the kept directory `d` adds the edges "." → `d` and `d` → file. */
  lemma FileUnderDir(d: string, f: FileInfo)
    requires KeptPart(d) && f.path == Path([d]) && PlainFileName(f)
    ensures FileEdges(p => p, f) == {(DirNode(Dot), DirNode(DirOf(d))), (DirNode(DirOf(d)), FileNode(f))}
  {
    var id: Rel := p => p;
    assert DirParts([d]) == [d];
    assert KeyOf(id, f) == [DirOf(d)];
    assert DirOf(d) != Dot;
    PlainFileLinked(f);
    assert Relocated(id, f) == f;
  }

  /**
   * The walk of the unit test's fixture, for any directory name `d` and file
   * names like `a.py`, `b.txt`: both files hang from `d`, which hangs from ".".
   */
  lemma ParseDirExample(d: string, a: FileInfo, b: FileInfo)
    requires KeptPart(d) && a.path == Path([d]) && b.path == Path([d])
    requires PlainFileName(a) && PlainFileName(b)
    ensures ParsedEdges(p => p, [a, b]) ==
      {(DirNode(Dot), DirNode(DirOf(d))), (DirNode(DirOf(d)), FileNode(a)), (DirNode(DirOf(d)), FileNode(b))}
  {
    ParsedEdgesPair(p => p, a, b);
    FileUnderDir(d, a);
    FileUnderDir(d, b);
  }

  /**
   * A file at `a/b/c/<file>`, with `b` and `c` different names: the parse
   * links `b` to `c` and `c` to the file, and nothing links "." or `a` to `b`.
   */
  lemma IntermediateDirsUnlinked(a: string, b: string, c: string, x: FileInfo)
    requires KeptPart(a) && KeptPart(b) && KeptPart(c) && b != c
    requires x.path == Path([a, b, c]) && PlainFileName(x)
    ensures ParsedEdges(p => p, [x]) == {(DirNode(DirOf(b)), DirNode(DirOf(c))), (DirNode(DirOf(c)), FileNode(x))}
  {
    var id: Rel := p => p;
    ParsedEdgesOne(id, x);
    ThreePartKey(a, b, c);
    assert KeyOf(id, x) == [DirOf(a), DirOf(b), DirOf(c)];
    assert DirOf(b) != DirOf(c);
    PlainFileLinked(x);
    assert Relocated(id, x) == x;
  }

  lemma ThreePartKey(a: string, b: string, c: string)
    requires KeptPart(a) && KeptPart(b) && KeptPart(c)
    ensures SplitDirs(Path([a, b, c])) == [DirOf(a), DirOf(b), DirOf(c)]
  {
    assert DirParts([c]) == [c];
    assert DirParts([b, c]) == [b, c];
    assert DirParts([a, b, c]) == [a, b, c];
  }

  /** `d` is `d0` with every pair of `added` present and unlabelled, the other labels kept. */
  ghost predicate NoneOver(d0: map<(Node, Node), Option<Relation>>, d: map<(Node, Node), Option<Relation>>, added: set<(Node, Node)>) {
    && (forall e :: e in d <==> e in d0 || e in added)
    && (forall e | e in added :: d[e] == None)
    && (forall e | e in d0 && e !in added :: d[e] == d0[e])
  }

  lemma NoneOverNone(d0: map<(Node, Node), Option<Relation>>)
    ensures NoneOver(d0, d0, {})
  {
  }

  lemma NoneOverOne(d0: map<(Node, Node), Option<Relation>>, e: (Node, Node))
    ensures NoneOver(d0, d0[e := None], {e})
  {
  }

  lemma NoneOverTrans(d0: map<(Node, Node), Option<Relation>>, d1: map<(Node, Node), Option<Relation>>, d2: map<(Node, Node), Option<Relation>>, a: set<(Node, Node)>, b: set<(Node, Node)>)
    requires NoneOver(d0, d1, a) && NoneOver(d1, d2, b)
    ensures NoneOver(d0, d2, a + b)
  {
  }

  // ---------------------------------------------------------------------
  // DirectoryParser

  class DirectoryParser {
    /** The file checkers; an absent list and an empty one both keep every file. */
    const checkers: seq<Checker>
    /** `_rel`, resolved against the base path. */
    const rel: Rel
    /** The graph of the last call. */
    var graph: GraphX?<Node, Relation>

    constructor (checkers: seq<Checker>, rel: Rel)
      ensures this.checkers == checkers && this.rel == rel && graph == null
    {
      this.checkers := checkers;
      this.rel := rel;
      graph := null;
    }

    /**
     * `DirectoryParser.__call__(graph, context)` on the files the walk of
     * `context` found: the files every checker accepts are grouped by
     * directory, and each group, shallowest first, links its directory from
     * its parent and its files from its directory, all without a label.
     */
    method Run(g: GraphX<Node, Relation>, walked: seq<FileInfo>) returns (r: GraphX<Node, Relation>)
      requires g.Valid()
      modifies this, g
      ensures r == g && graph == g && g.Valid()
      ensures NoneOver(old(g.data), g.data, ParsedEdges(rel, FilterAll(checkers, walked)))
    {
      var files := ApplyFilters(checkers, walked);
      graph := g;
      var keys, groups := GroupFiles(rel, files);
      SortedGroupsEdges(rel, files, keys, groups);
      AttachGroups(g, SortByLen(keys), groups);
      r := g;
    }

    /** The edge loop of `__call__`: the groups in the order of `keys`. */
    method AttachGroups(g: GraphX<Node, Relation>, keys: seq<Key>, groups: map<Key, seq<FileInfo>>)
      requires g.Valid()
      requires forall k | k in keys :: k in groups
      modifies g
      ensures g.Valid()
      ensures NoneOver(old(g.data), g.data, KeysEdges(rel, keys, groups))
    {
      NoneOverNone(g.data);
      for i := 0 to |keys|
        invariant g.Valid()
        invariant NoneOver(old(g.data), g.data, KeysEdges(rel, keys[..i], groups))
      {
        assert keys[..i + 1][..i] == keys[..i];
        ghost var d1 := g.data;
        AttachGroup(g, keys[i], groups[keys[i]]);
        NoneOverTrans(old(g.data), d1, g.data, KeysEdges(rel, keys[..i], groups), KeyEdges(rel, keys[i], groups[keys[i]]));
      }
      assert keys[..|keys|] == keys;
    }

    /** One group: the directory edge when parent and directory differ, then each file's edge. */
    method AttachGroup(g: GraphX<Node, Relation>, key: Key, group: seq<FileInfo>)
      requires g.Valid()
      modifies g
      ensures g.Valid()
      ensures NoneOver(old(g.data), g.data, KeyEdges(rel, key, group))
    {
      var current := Current(key);
      var parent := Parent(key);
      ghost var dirEdges: set<(Node, Node)> := {};
      NoneOverNone(g.data);
      if parent != current {
        NoneOverOne(g.data, DirEdge(key));
        g.AddEdge(DirNode(parent), DirNode(current), None);
        dirEdges := {DirEdge(key)};
      }
      ghost var d1 := g.data;
      AttachFiles(g, key, group);
      NoneOverTrans(old(g.data), d1, g.data, dirEdges, GroupFileEdges(rel, key, group));
    }

    /** The file loop of one group. */
    method AttachFiles(g: GraphX<Node, Relation>, key: Key, group: seq<FileInfo>)
      requires g.Valid()
      modifies g
      ensures g.Valid()
      ensures NoneOver(old(g.data), g.data, GroupFileEdges(rel, key, group))
    {
      NoneOverNone(g.data);
      for j := 0 to |group|
        invariant g.Valid()
        invariant NoneOver(old(g.data), g.data, GroupFileEdges(rel, key, group[..j]))
      {
        assert group[..j + 1][..j] == group[..j];
        ghost var d1 := g.data;
        AttachFile(g, key, group[j]);
        NoneOverTrans(old(g.data), d1, g.data, GroupFileEdges(rel, key, group[..j]),
          if Linked(rel, group[j]) then {FileEdge(rel, key, group[j])} else {});
      }
      assert group[..|group|] == group;
    }

    /** One file: its relocated node hangs from the group's directory when its own path differs from the directory's. */
    method AttachFile(g: GraphX<Node, Relation>, key: Key, f: FileInfo)
      requires g.Valid()
      modifies g
      ensures g.Valid()
      ensures NoneOver(old(g.data), g.data, if Linked(rel, f) then {FileEdge(rel, key, f)} else {})
    {
      var relFile := rel(Div(f.path, f.name + f.format));
      var fileNode := FileInfo(f.name, f.format, rel(f.path), f.isExclude);
      if relFile != rel(f.path) {
        NoneOverOne(g.data, FileEdge(rel, key, f));
        g.AddEdge(DirNode(Current(key)), FileNode(fileNode), None);
      } else {
        NoneOverNone(g.data);
      }
    }
  }
}
