/** The abstract value of a service's dependency tree: the address of each
    node and, in order, the trees of the services it depends on. */
module DependencyTree {

  datatype Tree = Node(addr: string, deps: seq<Tree>)

  predicate IsLeaf(t: Tree)
  {
    t.deps == []
  }

  /** Addresses of the leaf nodes of `t`. */
  function LeafAddrs(t: Tree): set<string>
    decreases t, 1
  {
    if t.deps == [] then {t.addr} else LeafAddrsOf(t.deps)
  }

  /** Addresses of the leaf nodes of a forest. */
  function LeafAddrsOf(ts: seq<Tree>): (r: set<string>)
    ensures forall i :: 0 <= i < |ts| ==> LeafAddrs(ts[i]) <= r
    decreases ts, 0
  {
    if ts == [] then {} else LeafAddrs(ts[0]) + LeafAddrsOf(ts[1..])
  }

  /** The root of `t` does not appear again as a leaf below it. Without this
      the root can be contacted twice in one query (see Engine). */
  predicate NoSelfDependency(t: Tree)
  {
    t.deps == [] || t.addr !in LeafAddrsOf(t.deps)
  }
}
