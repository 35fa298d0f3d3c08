/** A registered information microservice, or a node of one's dependency
    tree. Its identity is its address alone. */
module Services {
  import opened Documents
  import opened DependencyTree

  class Microservice {
    /** `ip + ':' + port`, the identity of the service. */
    const ip: string
    const dependencies: seq<Microservice>
    const name: Option<string>
    const creator: Option<string>
    const tile: Option<string>
    /** Learned from the first successful response; 0 means never learned. */
    var maxAge: real

    /** Height of the dependency tree; it bounds the recursion over it. */
    ghost const depth: nat
    /** Every node strictly below this one. */
    ghost const below: set<Microservice>

    /** This node is not below itself, and each dependency is shallower
        than this node and lies, with all its own nodes, inside `below`. */
    ghost predicate Valid()
      decreases depth
    {
      && this !in below
      && forall i :: 0 <= i < |dependencies| ==>
        && dependencies[i].depth < depth
        && dependencies[i] in below
        && dependencies[i].below <= below
        && dependencies[i].Valid()
    }

    /** The objects a request to this service may update. */
    ghost function Footprint(): set<Microservice>
    {
      {this} + below
    }

    /** `Microservice(host, d, name, creator, tile)`: a fresh service whose
        max-age is not learned yet. */
    constructor (host: string, d: seq<Microservice>, name: Option<string> := None,
                 creator: Option<string> := None, tile: Option<string> := None)
      requires forall i :: 0 <= i < |d| ==> d[i].Valid()
      ensures Valid()
      ensures ip == host && dependencies == d && maxAge == 0.0
      ensures this.name == name && this.creator == creator && this.tile == tile
      ensures below == Reach(d)
    {
      ip := host;
      dependencies := d;
      maxAge := 0.0;
      this.name := name;
      this.creator := creator;
      this.tile := tile;
      depth := 1 + MaxDepth(d);
      below := Reach(d);
      new;
      ReachAllocated(d);
    }

    /** The abstract dependency tree rooted at this node. */
    ghost function Tree(): (t: Tree)
      requires Valid()
      ensures t.addr == ip && |t.deps| == |dependencies|
      ensures forall i :: 0 <= i < |dependencies| ==> t.deps[i] == dependencies[i].Tree()
      decreases depth
    {
      Node(ip, seq(|dependencies|, i requires 0 <= i < |dependencies| => dependencies[i].Tree()))
    }

    /** `__eq__`: the addresses agree. */
    predicate Eq(other: Microservice)
    {
      ip == other.ip
    }

    /** `__ne__`: the negation of `__eq__`. */
    predicate Ne(other: Microservice)
    {
      !Eq(other)
    }

    /** `__hash__`: Python's string hash of the address, given here as the
        parameter `strHash` since its value is salted per process. */
    function Hash(strHash: string -> int): int
    {
      strHash(ip)
    }

    /** `__repr__`: "{tile} {name} IM by {creator} at {ip}". */
    function Repr(): (r: string)
      ensures |r| >= |" at " + ip|
      ensures r[|r| - |" at " + ip|..] == " at " + ip
    {
      Show(tile) + " " + Show(name) + " IM by " + Show(creator) + " at " + ip
    }
  }

  /** The trees of a list of services, in order. */
  ghost function TreesOf(ms: seq<Microservice>): (ts: seq<Tree>)
    requires forall i :: 0 <= i < |ms| ==> ms[i].Valid()
    ensures |ts| == |ms|
  {
    if ms == [] then [] else TreesOf(ms[..|ms| - 1]) + [ms[|ms| - 1].Tree()]
  }

  lemma {:induction false} TreesOfAt(ms: seq<Microservice>, i: nat)
    requires forall i :: 0 <= i < |ms| ==> ms[i].Valid()
    requires i < |ms|
    ensures TreesOf(ms)[i] == ms[i].Tree()
  {
    if i < |ms| - 1 {
      TreesOfAt(ms[..|ms| - 1], i);
    }
  }

  /** A service's tree is its address over the trees of its dependencies. */
  lemma TreeOfService(m: Microservice)
    requires m.Valid()
    ensures m.Tree() == Node(m.ip, TreesOf(m.dependencies))
  {
    forall i | 0 <= i < |m.dependencies|
      ensures TreesOf(m.dependencies)[i] == m.Tree().deps[i]
    {
      TreesOfAt(m.dependencies, i);
    }
  }

  /** Python's `str` of a field that may be `None`. */
  function Show(o: Option<string>): string
  {
    match o
    case None => "None"
    case Some(s) => s
  }

  ghost function MaxDepth(d: seq<Microservice>): (m: nat)
    ensures forall i :: 0 <= i < |d| ==> d[i].depth <= m
  {
    if d == [] then 0 else
      var rest := MaxDepth(d[1..]);
      if d[0].depth < rest then rest else d[0].depth
  }

  /** All nodes of a list of dependency trees. */
  ghost function Reach(d: seq<Microservice>): (r: set<Microservice>)
    ensures forall i :: 0 <= i < |d| ==> d[i] in r && d[i].below <= r
  {
    if d == [] then {} else {d[0]} + d[0].below + Reach(d[1..])
  }

  /** The nodes below a list of services are objects that already exist. */
  twostate lemma {:induction false} ReachAllocated(d: seq<Microservice>)
    requires forall i :: 0 <= i < |d| ==> old(allocated(d[i]))
    ensures forall n :: n in Reach(d) ==> old(allocated(n))
  {
    if d != [] {
      ReachAllocated(d[1..]);
    }
  }

  lemma {:induction false} ReachAppend(d: seq<Microservice>, m: Microservice)
    ensures Reach(d + [m]) == Reach(d) + {m} + m.below
  {
    if d == [] {
      assert [m][1..] == [];
    } else {
      assert (d + [m])[1..] == d[1..] + [m];
      ReachAppend(d[1..], m);
    }
  }

  /** Equality ignores everything but the address. */
  lemma EqIsAddressEquality(a: Microservice, b: Microservice)
    ensures a.Eq(b) <==> a.ip == b.ip
    ensures a.Ne(b) <==> !a.Eq(b)
  {
  }

  /** Equality is an equivalence relation. */
  lemma EqIsEquivalence(a: Microservice, b: Microservice, c: Microservice)
    ensures a.Eq(a)
    ensures a.Eq(b) ==> b.Eq(a)
    ensures a.Eq(b) && b.Eq(c) ==> a.Eq(c)
  {
  }

  /** Equal services hash equally, whatever the string hash is. */
  lemma EqualServicesHashEqually(a: Microservice, b: Microservice, strHash: string -> int)
    requires a.Eq(b)
    ensures a.Hash(strHash) == b.Hash(strHash)
  {
  }
}
