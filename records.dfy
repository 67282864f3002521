/**
 * The shared store of the records Python updates in place. Every module and
 * class record the analysis creates is appended here, and every update of a
 * record's `scope` goes through it, so all holders of a reference see it.
 */
module Records {
  import opened Model

  class Store {
    var heap: Heap

    constructor (h: Heap)
      ensures heap == h
    {
      heap := h;
    }

    /** Allocates a module record; the node refers to it. */
    method AddModule(m: ModuleInfo) returns (n: Node)
      modifies this
      ensures n == ModuleNode(|old(heap.modules)|)
      ensures heap == old(heap).(modules := old(heap.modules) + [m])
      ensures ScopesOnly(old(heap), heap) && Resolves(heap, n)
    {
      n := ModuleNode(|heap.modules|);
      heap := heap.(modules := heap.modules + [m]);
    }

    /** Allocates a class record; the node refers to it. */
    method AddClass(c: ClassInfo) returns (n: Node)
      modifies this
      ensures n == ClassNode(|old(heap.classes)|)
      ensures heap == old(heap).(classes := old(heap.classes) + [c])
      ensures ScopesOnly(old(heap), heap) && Resolves(heap, n)
    {
      n := ClassNode(|heap.classes|);
      heap := heap.(classes := heap.classes + [c]);
    }

    /** `n.scope = s` on a module or class record. */
    method AssignScope(n: Node, s: ImportScope)
      requires Resolves(heap, n) && (n.ModuleNode? || n.ClassNode?)
      modifies this
      ensures heap == SetScope(old(heap), n, s)
      ensures ScopesOnly(old(heap), heap)
    {
      heap := SetScope(heap, n, s);
    }
  }
}
