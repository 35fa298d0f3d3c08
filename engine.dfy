/** The aggregation engine as functions of an abstract state: the registry,
    the per-query memo, the TTL cache and a log of outbound calls. Each
    function mirrors one routine of the middleware and returns the document
    it produces together with the state it leaves behind. */
module Engine {
  import opened Documents
  import opened DependencyTree
  import opened TtlCache

  /** What the transport gives back for one outbound call. `maxAge` is the
      already-parsed value of the response's `Cache-Control` header. */
  datatype Reply = Unreachable | Response(status: int, body: Doc, maxAge: real)

  /** A call whose response is used: reachable and status below 400. */
  predicate Succeeded(r: Reply)
  {
    r.Response? && r.status < 400
  }

  /** What a call contributes to its caller: the body, or `{}` on failure. */
  function Contribution(r: Reply): Doc
  {
    if Succeeded(r) then r.body else map[]
  }

  /** The learn-once rule for a service's max-age: an unlearned (zero)
      value takes the offered one, a learned one is kept. */
  function LearnMaxAge(current: real, offered: real): real
  {
    if current == 0.0 then offered else current
  }

  /** Once learned, a max-age never changes, whatever later responses
      offer; an offer of 0 leaves it unlearned. */
  lemma LearnedMaxAgeSticks(current: real, offered: real, later: real)
    ensures current != 0.0 ==> LearnMaxAge(current, offered) == current
    ensures offered != 0.0 ==> LearnMaxAge(LearnMaxAge(0.0, offered), later) == offered
    ensures LearnMaxAge(0.0, 0.0) == 0.0
  {
  }

  /** The max-age a service holds after its own call is answered `r`: only
      a success teaches it anything. */
  function Learn(current: real, r: Reply): real
  {
    if Succeeded(r) then LearnMaxAge(current, r.maxAge) else current
  }

  /** One outbound call: the address, the JSON payload sent, and the reply. */
  datatype Call = Call(addr: string, payload: Doc, reply: Reply)

  /** The remote services, as a function of the address and the payload. */
  type Network = (string, Doc) -> Reply

  /** One query: its location, the clock reading, and the remote services. */
  datatype Query = Query(loc: Location, now: int, net: Network)

  /** `apps` is the registry keyed by address (`A` is the service object),
      `memo` the per-query `processed` table, `log` every call made so far. */
  datatype State<A> = State(apps: map<string, A>, memo: map<string, Doc>, cache: Cache, log: seq<Call>)

  datatype Out<A> = Out(doc: Doc, st: State<A>)

  /** `make_im_request`: an unreachable service is dropped from the
      registry; an error status is ignored; a success is cached and memoised. */
  function Request<A>(addr: string, payload: Doc, q: Query, s: State<A>): Out<A>
  {
    var reply := q.net(addr, payload);
    var log := s.log + [Call(addr, payload, reply)];
    if reply.Unreachable? then Out(map[], s.(apps := s.apps - {addr}, log := log))
    else if reply.status >= 400 then Out(map[], s.(log := log))
    else Out(reply.body, s.(memo := s.memo[addr := reply.body],
                            cache := Store(s.cache, q.loc, addr, reply.body, q.now),
                            log := log))
  }

  /** `process_request`: a memoised address is answered from the memo; a
      leaf is sent the location; any other node is sent its dependency data
      overwritten by the location. */
  function Resolve<A>(t: Tree, q: Query, s: State<A>): Out<A>
    decreases t, 2
  {
    if t.addr in s.memo then Out(s.memo[t.addr], s)
    else if |t.deps| == 0 then Request(t.addr, LatLonDoc(q.loc), q, s)
    else
      var o := DepData(t, q, s);
      Request(t.addr, o.doc + LatLonDoc(q.loc), q, o.st)
  }

  /** `get_dependency_data`: the merge, in order, of what each dependency
      contributes. */
  function DepData<A>(t: Tree, q: Query, s: State<A>): Out<A>
    decreases t, 1
  {
    DepsLoop(t.deps, map[], q, s)
  }

  /** The outer loop of `get_dependency_data` over the dependencies `ds`,
      with accumulator `acc`. A dependency with children is not contacted:
      the dependency data of each of its children is merged instead. A leaf
      dependency is answered from the memo or contacted with the location. */
  function DepsLoop<A>(ds: seq<Tree>, acc: Doc, q: Query, s: State<A>): Out<A>
    decreases ds, 0
  {
    if ds == [] then Out(acc, s)
    else
      var d := ds[0];
      if |d.deps| > 0 then
        var o := GrandLoop(d.deps, acc, q, s);
        DepsLoop(ds[1..], o.doc, q, o.st)
      else if d.addr in s.memo then
        DepsLoop(ds[1..], acc + s.memo[d.addr], q, s)
      else
        var o := Request(d.addr, LatLonDoc(q.loc), q, s);
        DepsLoop(ds[1..], acc + o.doc, q, o.st)
  }

  /** The inner loop `for dd in dependency.dependencies`. */
  function GrandLoop<A>(dds: seq<Tree>, acc: Doc, q: Query, s: State<A>): Out<A>
    decreases dds, 3
  {
    if dds == [] then Out(acc, s)
    else
      var o := DepData(dds[0], q, s);
      GrandLoop(dds[1..], acc + o.doc, q, o.st)
  }

  /** The payload `process_request` sends to the service `t` itself: the
      location for a leaf, the dependency data overwritten by the location
      otherwise. */
  function RootPayload<A>(t: Tree, q: Query, s: State<A>): Doc
  {
    if |t.deps| == 0 then LatLonDoc(q.loc) else DepData(t, q, s).doc + LatLonDoc(q.loc)
  }

  /** The max-age of the service at the root of `t`, `age` before
      `process_request`, after it: a memoised service makes no call;
      otherwise it learns from the reply to its own call. */
  function ResolveAge<A>(t: Tree, q: Query, s: State<A>, age: real): real
  {
    if t.addr in s.memo then age else Learn(age, q.net(t.addr, RootPayload(t, q, s)))
  }

  /** What the response for one top-level service is built from. */
  datatype AppView = AppView(name: Option<string>, creator: Option<string>, tile: Option<string>,
                             maxAge: real, tree: Tree)

  /** `{'_metadata': {'name': ..., 'creator': ..., 'tile': ...}}`. */
  function Metadata(name: Option<string>, creator: Option<string>, tile: Option<string>): Doc
  {
    map["_metadata" := Obj(map["name" := OptionalText(name),
                               "creator" := OptionalText(creator),
                               "tile" := OptionalText(tile)])]
  }

  function MetadataOf(v: AppView): Doc
  {
    Metadata(v.name, v.creator, v.tile)
  }

  /** One iteration of the loop of `POST_MIX`: the metadata updated by the
      cached document on a cache hit, by the resolved document otherwise. */
  function AggStep<A>(v: AppView, q: Query, s: State<A>): Out<A>
  {
    if Fresh(s.cache, q.loc, v.tree.addr, v.maxAge, q.now) then
      Out(MetadataOf(v) + Lookup(s.cache, q.loc, v.tree.addr).value.doc, s)
    else
      var o := Resolve(v.tree, q, s);
      Out(MetadataOf(v) + o.doc, o.st)
  }

  /** The document one iteration of `POST_MIX` merges into the metadata:
      the cached document on a hit, the resolved one otherwise. */
  function StepBody<A>(v: AppView, q: Query, s: State<A>): Doc
  {
    if Fresh(s.cache, q.loc, v.tree.addr, v.maxAge, q.now) then Lookup(s.cache, q.loc, v.tree.addr).value.doc
    else Resolve(v.tree, q, s).doc
  }

  /** The max-age of the top-level service of `v` after one iteration of
      `POST_MIX`: kept on a cache hit, as `process_request` leaves it
      otherwise. */
  function StepAge<A>(v: AppView, q: Query, s: State<A>): real
  {
    if Fresh(s.cache, q.loc, v.tree.addr, v.maxAge, q.now) then v.maxAge
    else ResolveAge(v.tree, q, s, v.maxAge)
  }

  datatype Batch<A> = Batch(docs: seq<Doc>, st: State<A>)

  /** The loop of `POST_MIX` over the snapshot, in the order `vs`. */
  function Aggregate<A>(vs: seq<AppView>, q: Query, s: State<A>): Batch<A>
    decreases |vs|
  {
    if vs == [] then Batch([], s)
    else
      var b := Aggregate(vs[..|vs| - 1], q, s);
      var o := AggStep(vs[|vs| - 1], q, b.st);
      Batch(b.docs + [o.doc], o.st)
  }

  /** The max-age of each top-level service of `vs` after the loop of
      `POST_MIX`, in the order `vs`. */
  function AgesAfter<A>(vs: seq<AppView>, q: Query, s: State<A>): (ages: seq<real>)
    ensures |ages| == |vs|
    decreases |vs|
  {
    if vs == [] then []
    else
      var p := vs[..|vs| - 1];
      AgesAfter(p, q, s) + [StepAge(vs[|vs| - 1], q, Aggregate(p, q, s).st)]
  }

  // ---------------------------------------------------------------------
  // The outbound call

  /** The three outcomes of a call, stated as changes of state. */
  lemma RequestOutcome<A>(addr: string, payload: Doc, q: Query, s: State<A>)
    ensures var o := Request(addr, payload, q, s); var r := q.net(addr, payload);
      && o.doc == Contribution(r)
      && o.st.log == s.log + [Call(addr, payload, r)]
      && (r.Unreachable? ==>
            && addr !in o.st.apps
            && (forall a :: a in s.apps && a != addr ==> a in o.st.apps && o.st.apps[a] == s.apps[a])
            && o.st.apps.Keys <= s.apps.Keys
            && o.st.memo == s.memo && o.st.cache == s.cache)
      && (r.Response? && r.status >= 400 ==>
            o.st.apps == s.apps && o.st.memo == s.memo && o.st.cache == s.cache)
      && (Succeeded(r) ==>
            && o.st.apps == s.apps
            && o.st.memo == s.memo[addr := r.body]
            && Lookup(o.st.cache, q.loc, addr) == Some(Entry(r.body, q.now))
            && (forall l, a :: (l, a) != (q.loc, addr) ==> Lookup(o.st.cache, l, a) == Lookup(s.cache, l, a)))
  {
    var o := Request(addr, payload, q, s);
    var r := q.net(addr, payload);
    if Succeeded(r) {
      forall l, a | (l, a) != (q.loc, addr)
        ensures Lookup(o.st.cache, l, a) == Lookup(s.cache, l, a)
      {
        StoreOverwritesOneEntry(s.cache, q.loc, addr, r.body, q.now, l, a);
      }
      StoreOverwritesOneEntry(s.cache, q.loc, addr, r.body, q.now, q.loc, addr);
    }
  }

  // ---------------------------------------------------------------------
  // What a resolution may change

  /** `s'` follows `s`: the log only grew, every new call went to an address
      in `addrs`, only addresses in `addrs` joined the memo, and the
      registry only lost members. */
  ghost predicate Extends<A>(s: State<A>, s': State<A>, addrs: set<string>)
  {
    && |s.log| <= |s'.log| && s'.log[..|s.log|] == s.log
    && (forall i :: |s.log| <= i < |s'.log| ==> s'.log[i].addr in addrs)
    && s'.memo.Keys <= s.memo.Keys + addrs
    && (forall a :: a in s'.apps ==> a in s.apps && s'.apps[a] == s.apps[a])
  }

  lemma ExtendsTrans<A>(s1: State<A>, s2: State<A>, s3: State<A>, a1: set<string>, a2: set<string>, a: set<string>)
    requires Extends(s1, s2, a1) && Extends(s2, s3, a2) && a1 + a2 <= a
    ensures Extends(s1, s3, a)
  {
    assert s3.log[..|s1.log|] == s3.log[..|s2.log|][..|s1.log|];
    forall i | |s1.log| <= i < |s3.log| ensures s3.log[i].addr in a {
      if i < |s2.log| {
        assert s3.log[i] == s3.log[..|s2.log|][i];
      }
    }
  }

  lemma RequestExtends<A>(addr: string, payload: Doc, q: Query, s: State<A>)
    ensures Extends(s, Request(addr, payload, q, s).st, {addr})
  {
    var s' := Request(addr, payload, q, s).st;
    assert s'.log[..|s.log|] == s.log;
  }

  /** Gathering the dependency data of `t` contacts only leaves of the trees
      below `t`: a dependency that has dependencies of its own is never
      contacted while gathering. */
  lemma {:induction false} DepDataContactsOnlyLeaves<A>(t: Tree, q: Query, s: State<A>)
    ensures Extends(s, DepData(t, q, s).st, LeafAddrsOf(t.deps))
    decreases t, 1
  {
    DepsLoopContactsOnlyLeaves(t.deps, map[], q, s);
  }

  lemma {:induction false} DepsLoopContactsOnlyLeaves<A>(ds: seq<Tree>, acc: Doc, q: Query, s: State<A>)
    ensures Extends(s, DepsLoop(ds, acc, q, s).st, LeafAddrsOf(ds))
    decreases ds, 0
  {
    if ds == [] {
      assert s.log[..|s.log|] == s.log;
    } else {
      var d := ds[0];
      var rest := LeafAddrsOf(ds[1..]);
      assert LeafAddrsOf(ds) == LeafAddrs(d) + rest;
      if |d.deps| > 0 {
        var o := GrandLoop(d.deps, acc, q, s);
        GrandLoopContactsOnlyLeaves(d.deps, acc, q, s);
        DepsLoopContactsOnlyLeaves(ds[1..], o.doc, q, o.st);
        ExtendsTrans(s, o.st, DepsLoop(ds[1..], o.doc, q, o.st).st, LeafAddrsOf(d.deps), rest, LeafAddrsOf(ds));
      } else if d.addr in s.memo {
        DepsLoopContactsOnlyLeaves(ds[1..], acc + s.memo[d.addr], q, s);
      } else {
        var o := Request(d.addr, LatLonDoc(q.loc), q, s);
        RequestExtends(d.addr, LatLonDoc(q.loc), q, s);
        DepsLoopContactsOnlyLeaves(ds[1..], acc + o.doc, q, o.st);
        ExtendsTrans(s, o.st, DepsLoop(ds[1..], acc + o.doc, q, o.st).st, {d.addr}, rest, LeafAddrsOf(ds));
      }
    }
  }

  lemma {:induction false} GrandLoopContactsOnlyLeaves<A>(dds: seq<Tree>, acc: Doc, q: Query, s: State<A>)
    ensures Extends(s, GrandLoop(dds, acc, q, s).st, LeafAddrsOf(dds))
    decreases dds, 3
  {
    if dds == [] {
      assert s.log[..|s.log|] == s.log;
    } else {
      var o := DepData(dds[0], q, s);
      DepDataContactsOnlyLeaves(dds[0], q, s);
      GrandLoopContactsOnlyLeaves(dds[1..], acc + o.doc, q, o.st);
      assert LeafAddrsOf(dds[0].deps) <= LeafAddrs(dds[0]);
      ExtendsTrans(s, o.st, GrandLoop(dds[1..], acc + o.doc, q, o.st).st,
                   LeafAddrsOf(dds[0].deps), LeafAddrsOf(dds[1..]), LeafAddrsOf(dds));
    }
  }

  /** Resolving `t` contacts only `t` itself and leaves below it. */
  lemma ResolveExtends<A>(t: Tree, q: Query, s: State<A>)
    ensures Extends(s, Resolve(t, q, s).st, LeafAddrs(t) + {t.addr})
  {
    if t.addr in s.memo {
      assert s.log[..|s.log|] == s.log;
    } else if |t.deps| == 0 {
      RequestExtends(t.addr, LatLonDoc(q.loc), q, s);
    } else {
      var o := DepData(t, q, s);
      DepDataContactsOnlyLeaves(t, q, s);
      RequestExtends(t.addr, o.doc + LatLonDoc(q.loc), q, o.st);
      ExtendsTrans(s, o.st, Resolve(t, q, s).st, LeafAddrsOf(t.deps), {t.addr}, LeafAddrs(t) + {t.addr});
    }
  }

  /** A dependency whose children are all leaves contributes nothing and
      contacts nobody: its leaf children are never called. */
  lemma {:induction false} LeafGrandchildrenSilent<A>(ds: seq<Tree>, acc: Doc, q: Query, s: State<A>)
    requires forall i :: 0 <= i < |ds| ==> |ds[i].deps| > 0
    requires forall i, j :: 0 <= i < |ds| && 0 <= j < |ds[i].deps| ==> IsLeaf(ds[i].deps[j])
    ensures DepsLoop(ds, acc, q, s) == Out(acc, s)
    decreases ds
  {
    if ds != [] {
      LeafChildrenAddNothing(ds[0].deps, acc, q, s);
      LeafGrandchildrenSilent(ds[1..], acc, q, s);
    }
  }

  lemma {:induction false} LeafChildrenAddNothing<A>(dds: seq<Tree>, acc: Doc, q: Query, s: State<A>)
    requires forall j :: 0 <= j < |dds| ==> IsLeaf(dds[j])
    ensures GrandLoop(dds, acc, q, s) == Out(acc, s)
    decreases dds
  {
    if dds != [] {
      assert DepData(dds[0], q, s) == Out(map[], s);
      assert acc + map[] == acc;
      LeafChildrenAddNothing(dds[1..], acc, q, s);
    }
  }

  // ---------------------------------------------------------------------
  // At most one contact after a success, within one query

  /** The memo that the successful calls of `calls` build, in order. */
  function Learned(calls: seq<Call>): map<string, Doc>
  {
    if calls == [] then map[]
    else
      var c := calls[|calls| - 1];
      var m := Learned(calls[..|calls| - 1]);
      if Succeeded(c.reply) then m[c.addr := c.reply.body] else m
  }

  /** No call goes to an address that already answered successfully. */
  ghost predicate EachCallFresh(calls: seq<Call>)
  {
    forall j :: 0 <= j < |calls| ==> calls[j].addr !in Learned(calls[..j])
  }

  /** The state of a query whose calls are `s.log[k..]`: the memo is exactly
      what those calls taught, and none of them repeated a success. */
  ghost predicate QueryInv<A>(s: State<A>, k: nat)
  {
    k <= |s.log| && s.memo == Learned(s.log[k..]) && EachCallFresh(s.log[k..])
  }

  lemma {:induction false} LearnedKeeps(calls: seq<Call>, i: nat, j: nat)
    requires i < j <= |calls| && Succeeded(calls[i].reply)
    ensures calls[i].addr in Learned(calls[..j])
    decreases j
  {
    var p := calls[..j];
    assert p[..|p| - 1] == calls[..j - 1];
    if j > i + 1 {
      LearnedKeeps(calls, i, j - 1);
    }
  }

  /** In a sequence of calls where no call repeats a success, a service that
      answered successfully is never contacted again. */
  lemma OnceAfterSuccess(calls: seq<Call>)
    requires EachCallFresh(calls)
    ensures forall i, j :: 0 <= i < j < |calls| && Succeeded(calls[i].reply) ==> calls[j].addr != calls[i].addr
  {
    forall i, j | 0 <= i < j < |calls| && Succeeded(calls[i].reply)
      ensures calls[j].addr != calls[i].addr
    {
      LearnedKeeps(calls, i, j);
    }
  }

  lemma LearnedAppend(calls: seq<Call>, c: Call)
    ensures Learned(calls + [c]) ==
            if Succeeded(c.reply) then Learned(calls)[c.addr := c.reply.body] else Learned(calls)
  {
    assert (calls + [c])[..|calls|] == calls;
  }

  lemma FreshAppend(calls: seq<Call>, c: Call)
    requires EachCallFresh(calls) && c.addr !in Learned(calls)
    ensures EachCallFresh(calls + [c])
  {
    var all := calls + [c];
    forall j | 0 <= j < |all| ensures all[j].addr !in Learned(all[..j]) {
      if j < |calls| {
        assert all[..j] == calls[..j];
      } else {
        assert all[..j] == calls;
      }
    }
  }

  lemma RequestKeepsQueryInv<A>(addr: string, payload: Doc, q: Query, s: State<A>, k: nat)
    requires QueryInv(s, k) && addr !in s.memo
    ensures QueryInv(Request(addr, payload, q, s).st, k)
  {
    var s' := Request(addr, payload, q, s).st;
    var c := Call(addr, payload, q.net(addr, payload));
    assert s'.log == s.log + [c];
    assert s'.log[k..] == s.log[k..] + [c];
    LearnedAppend(s.log[k..], c);
    FreshAppend(s.log[k..], c);
  }

  lemma {:induction false} DepsLoopKeepsQueryInv<A>(ds: seq<Tree>, acc: Doc, q: Query, s: State<A>, k: nat)
    requires QueryInv(s, k)
    ensures QueryInv(DepsLoop(ds, acc, q, s).st, k)
    decreases ds, 0
  {
    if ds != [] {
      var d := ds[0];
      if |d.deps| > 0 {
        var o := GrandLoop(d.deps, acc, q, s);
        GrandLoopKeepsQueryInv(d.deps, acc, q, s, k);
        DepsLoopKeepsQueryInv(ds[1..], o.doc, q, o.st, k);
      } else if d.addr in s.memo {
        DepsLoopKeepsQueryInv(ds[1..], acc + s.memo[d.addr], q, s, k);
      } else {
        var o := Request(d.addr, LatLonDoc(q.loc), q, s);
        RequestKeepsQueryInv(d.addr, LatLonDoc(q.loc), q, s, k);
        DepsLoopKeepsQueryInv(ds[1..], acc + o.doc, q, o.st, k);
      }
    }
  }

  lemma {:induction false} GrandLoopKeepsQueryInv<A>(dds: seq<Tree>, acc: Doc, q: Query, s: State<A>, k: nat)
    requires QueryInv(s, k)
    ensures QueryInv(GrandLoop(dds, acc, q, s).st, k)
    decreases dds, 3
  {
    if dds != [] {
      var o := DepData(dds[0], q, s);
      DepsLoopKeepsQueryInv(dds[0].deps, map[], q, s, k);
      GrandLoopKeepsQueryInv(dds[1..], acc + o.doc, q, o.st, k);
    }
  }

  /** Resolving a tree whose root is not also a leaf below it keeps the
      query invariant. */
  lemma ResolveKeepsQueryInv<A>(t: Tree, q: Query, s: State<A>, k: nat)
    requires QueryInv(s, k) && NoSelfDependency(t)
    ensures QueryInv(Resolve(t, q, s).st, k)
  {
    if t.addr !in s.memo {
      if |t.deps| == 0 {
        RequestKeepsQueryInv(t.addr, LatLonDoc(q.loc), q, s, k);
      } else {
        var o := DepData(t, q, s);
        DepsLoopKeepsQueryInv(t.deps, map[], q, s, k);
        DepDataContactsOnlyLeaves(t, q, s);
        RequestKeepsQueryInv(t.addr, o.doc + LatLonDoc(q.loc), q, o.st, k);
      }
    }
  }

  /** The whole loop of a query keeps the invariant when no service's
      address is a leaf of its own dependency tree. */
  lemma {:induction false} AggregateKeepsQueryInv<A>(vs: seq<AppView>, q: Query, s: State<A>, k: nat)
    requires QueryInv(s, k)
    requires forall i :: 0 <= i < |vs| ==> NoSelfDependency(vs[i].tree)
    ensures QueryInv(Aggregate(vs, q, s).st, k)
    decreases |vs|
  {
    if vs != [] {
      var b := Aggregate(vs[..|vs| - 1], q, s);
      AggregateKeepsQueryInv(vs[..|vs| - 1], q, s, k);
      var v := vs[|vs| - 1];
      if !Fresh(b.st.cache, q.loc, v.tree.addr, v.maxAge, q.now) {
        ResolveKeepsQueryInv(v.tree, q, b.st, k);
      }
    }
  }

  /** A query starts with an empty memo; then, when no service depends on
      itself, no service is contacted again after it answered successfully
      in that query. */
  lemma QueryContactsOnceAfterSuccess<A>(vs: seq<AppView>, q: Query, s: State<A>)
    requires s.memo == map[]
    requires forall i :: 0 <= i < |vs| ==> NoSelfDependency(vs[i].tree)
    ensures var all := Aggregate(vs, q, s).st.log;
      && |s.log| <= |all|
      && forall i, j :: |s.log| <= i < j < |all| && Succeeded(all[i].reply) ==> all[j].addr != all[i].addr
  {
    assert s.log[|s.log|..] == [];
    AggregateKeepsQueryInv(vs, q, s, |s.log|);
    var all := Aggregate(vs, q, s).st.log;
    var calls := all[|s.log|..];
    OnceAfterSuccess(calls);
    forall i, j | |s.log| <= i < j < |all| && Succeeded(all[i].reply)
      ensures all[j].addr != all[i].addr
    {
      assert all[i] == calls[i - |s.log|] && all[j] == calls[j - |s.log|];
    }
  }

  /** Without that hypothesis the property fails: a service whose only
      dependency has its own address is contacted twice, the second time
      after a successful answer. */
  lemma SelfDependencyContactedTwice<A>(loc: Location, now: int, s: State<A>)
    requires s.memo == map[]
    ensures
      var ok := Response(200, map[], 1.0);
      var q := Query(loc, now, (a: string, p: Doc) => ok);
      var t := Node("b", [Node("b", [])]);
      && !NoSelfDependency(t)
      && Resolve(t, q, s).st.log == s.log + [Call("b", LatLonDoc(loc), ok), Call("b", LatLonDoc(loc), ok)]
  {
    var ok := Response(200, map[], 1.0);
    var q := Query(loc, now, (a: string, p: Doc) => ok);
    var t := Node("b", [Node("b", [])]);
    assert LeafAddrsOf(t.deps) == {"b"};
    var o := DepData(t, q, s);
    assert o.doc == map[];
    assert map[] + LatLonDoc(loc) == LatLonDoc(loc);
  }

  // ---------------------------------------------------------------------
  // Resolution

  /** A memoised service is answered from the memo with no outbound call. */
  lemma MemoHitMakesNoCall<A>(t: Tree, q: Query, s: State<A>)
    requires t.addr in s.memo
    ensures Resolve(t, q, s) == Out(s.memo[t.addr], s)
  {
  }

  /** A leaf that is not memoised is contacted once, with exactly the
      location as payload, and answers with its contribution. */
  lemma LeafSendsLocation<A>(t: Tree, q: Query, s: State<A>)
    requires IsLeaf(t) && t.addr !in s.memo
    ensures var r := q.net(t.addr, LatLonDoc(q.loc));
      && Resolve(t, q, s).st.log == s.log + [Call(t.addr, LatLonDoc(q.loc), r)]
      && Resolve(t, q, s).doc == Contribution(r)
  {
    RequestOutcome(t.addr, LatLonDoc(q.loc), q, s);
  }

  /** A node with dependencies is contacted last, after its dependency data
      is gathered; its payload is that data with `latitude` and `longitude`
      overwritten by the query's location. */
  lemma NonLeafSendsMergedData<A>(t: Tree, q: Query, s: State<A>)
    requires !IsLeaf(t) && t.addr !in s.memo
    ensures var d := DepData(t, q, s); var o := Resolve(t, q, s);
      && |o.st.log| == |d.st.log| + 1
      && o.st.log[..|d.st.log|] == d.st.log
      && var c := o.st.log[|d.st.log|];
      && c.addr == t.addr
      && c.payload["latitude"] == Num(q.loc.lat) && c.payload["longitude"] == Num(q.loc.lon)
      && (forall key :: key != "latitude" && key != "longitude" ==>
            (key in c.payload <==> key in d.doc) && (key in d.doc ==> c.payload[key] == d.doc[key]))
      && o.doc == Contribution(c.reply)
  {
    var d := DepData(t, q, s);
    RequestOutcome(t.addr, d.doc + LatLonDoc(q.loc), q, d.st);
    var o := Resolve(t, q, s);
    assert o.st.log == d.st.log + [Call(t.addr, d.doc + LatLonDoc(q.loc), q.net(t.addr, d.doc + LatLonDoc(q.loc)))];
    assert o.st.log[..|d.st.log|] == d.st.log;
  }

  /** A service with two leaf dependencies: the two leaves are contacted
      first, in order, with the location, and the service then receives their
      merged answers overwritten by the location. */
  lemma TwoLeafDependencies<A>(b: string, c: string, d: string, q: Query, s: State<A>)
    requires b !in s.memo && c !in s.memo && d !in s.memo && c != d
    ensures
      var ll := LatLonDoc(q.loc);
      var rc := q.net(c, ll);
      var rd := q.net(d, ll);
      var payload := Contribution(rc) + Contribution(rd) + ll;
      Resolve(Node(b, [Node(c, []), Node(d, [])]), q, s).st.log ==
        s.log + [Call(c, ll, rc), Call(d, ll, rd), Call(b, payload, q.net(b, payload))]
  {
    var ll := LatLonDoc(q.loc);
    var o := DepData(Node(b, [Node(c, []), Node(d, [])]), q, s);
    TwoLeavesMerged(c, d, q, s);
    RequestOutcome(b, o.doc + ll, q, o.st);
  }

  /** The dependency data of two distinct leaves not yet answered: each is
      contacted once, in order, with the location, and their contributions
      are merged in that order. */
  lemma TwoLeavesMerged<A>(c: string, d: string, q: Query, s: State<A>)
    requires c !in s.memo && d !in s.memo && c != d
    ensures
      var ll := LatLonDoc(q.loc);
      var rc := q.net(c, ll);
      var rd := q.net(d, ll);
      var o := DepsLoop([Node(c, []), Node(d, [])], map[], q, s);
      && o.doc == Contribution(rc) + Contribution(rd)
      && o.st.log == s.log + [Call(c, ll, rc), Call(d, ll, rd)]
  {
    var ll := LatLonDoc(q.loc);
    var ds := [Node(c, []), Node(d, [])];
    var o1 := Request(c, ll, q, s);
    RequestOutcome(c, ll, q, s);
    assert ds[1..] == [Node(d, [])];
    var o2 := Request(d, ll, q, o1.st);
    RequestOutcome(d, ll, q, o1.st);
    assert ds[1..][1..] == [];
    assert d !in o1.st.memo;
    calc {
      DepsLoop(ds, map[], q, s);
      DepsLoop(ds[1..], map[] + o1.doc, q, o1.st);
      DepsLoop([], map[] + o1.doc + o2.doc, q, o2.st);
      Out(map[] + o1.doc + o2.doc, o2.st);
    }
    assert map[] + o1.doc == o1.doc;
  }

  // ---------------------------------------------------------------------
  // The query loop

  /** A cache hit answers from the cache and changes nothing. */
  lemma CacheHitMakesNoCall<A>(v: AppView, q: Query, s: State<A>)
    requires Fresh(s.cache, q.loc, v.tree.addr, v.maxAge, q.now)
    ensures AggStep(v, q, s) == Out(MetadataOf(v) + Lookup(s.cache, q.loc, v.tree.addr).value.doc, s)
  {
  }

  /** A top-level leaf service missing from cache and memo: on success its
      element is its metadata updated by the body; when unreachable it is
      dropped from the registry and its element is the metadata alone. */
  lemma LeafAppContribution<A>(v: AppView, q: Query, s: State<A>)
    requires IsLeaf(v.tree) && v.tree.addr !in s.memo
    requires !Fresh(s.cache, q.loc, v.tree.addr, v.maxAge, q.now)
    ensures var r := q.net(v.tree.addr, LatLonDoc(q.loc)); var o := AggStep(v, q, s);
      && (Succeeded(r) ==> o.doc == MetadataOf(v) + r.body)
      && (!Succeeded(r) ==> o.doc == MetadataOf(v))
      && (r.Unreachable? ==> v.tree.addr !in o.st.apps)
  {
    RequestOutcome(v.tree.addr, LatLonDoc(q.loc), q, s);
    assert MetadataOf(v) + map[] == MetadataOf(v);
  }

  /** Element `i` of the result is what iteration `i` produced, in the
      state the iterations before it left. */
  lemma {:induction false} AggregateAt<A>(vs: seq<AppView>, q: Query, s: State<A>, i: nat)
    requires i < |vs|
    ensures |Aggregate(vs, q, s).docs| == |vs|
    ensures Aggregate(vs, q, s).docs[i] == AggStep(vs[i], q, Aggregate(vs[..i], q, s).st).doc
    decreases |vs|
  {
    var p := vs[..|vs| - 1];
    if i < |p| {
      AggregateAt(p, q, s, i);
      assert vs[..i] == p[..i];
    } else {
      if p != [] {
        AggregateAt(p, q, s, 0);
      }
      assert vs[..i] == p;
    }
  }

  /** Element `i` of the result belongs to service `vs[i]`: its metadata
      updated by the document obtained for it in the state the elements
      before it left; so `_metadata` is that service's own unless its
      document overwrote the key. */
  lemma AggregateShape<A>(vs: seq<AppView>, q: Query, s: State<A>)
    ensures var b := Aggregate(vs, q, s);
      && |b.docs| == |vs|
      && forall i :: 0 <= i < |vs| ==>
           var body := StepBody(vs[i], q, Aggregate(vs[..i], q, s).st);
           && b.docs[i] == MetadataOf(vs[i]) + body
           && ("_metadata" !in body ==> b.docs[i]["_metadata"] == MetadataOf(vs[i])["_metadata"])
  {
    if vs != [] {
      AggregateAt(vs, q, s, 0);
    }
    forall i | 0 <= i < |vs|
      ensures Aggregate(vs, q, s).docs[i] == MetadataOf(vs[i]) + StepBody(vs[i], q, Aggregate(vs[..i], q, s).st)
    {
      AggregateAt(vs, q, s, i);
    }
  }

  /** The max-age of service `i` after the loop is the one its own
      iteration left. */
  lemma {:induction false} AgesAfterAt<A>(vs: seq<AppView>, q: Query, s: State<A>, i: nat)
    requires i < |vs|
    ensures AgesAfter(vs, q, s)[i] == StepAge(vs[i], q, Aggregate(vs[..i], q, s).st)
    decreases |vs|
  {
    var p := vs[..|vs| - 1];
    if i < |p| {
      AgesAfterAt(p, q, s, i);
      assert vs[..i] == p[..i];
    } else {
      assert vs[..i] == p;
    }
  }

  /** A query never changes a learned max-age of a top-level service. */
  lemma LearnedAgesKept<A>(vs: seq<AppView>, q: Query, s: State<A>)
    ensures forall i :: 0 <= i < |vs| && vs[i].maxAge != 0.0 ==> AgesAfter(vs, q, s)[i] == vs[i].maxAge
  {
    forall i | 0 <= i < |vs| && vs[i].maxAge != 0.0
      ensures AgesAfter(vs, q, s)[i] == vs[i].maxAge
    {
      AgesAfterAt(vs, q, s, i);
    }
  }

  /** A query only appends to the log and only removes services from the
      registry. */
  lemma {:induction false} AggregateShrinksRegistry<A>(vs: seq<AppView>, q: Query, s: State<A>)
    ensures var s' := Aggregate(vs, q, s).st;
      && |s.log| <= |s'.log| && s'.log[..|s.log|] == s.log
      && forall a :: a in s'.apps ==> a in s.apps && s'.apps[a] == s.apps[a]
    decreases |vs|
  {
    if vs == [] {
      assert s.log[..|s.log|] == s.log;
    } else {
      var b := Aggregate(vs[..|vs| - 1], q, s);
      AggregateShrinksRegistry(vs[..|vs| - 1], q, s);
      var v := vs[|vs| - 1];
      var s' := Aggregate(vs, q, s).st;
      if !Fresh(b.st.cache, q.loc, v.tree.addr, v.maxAge, q.now) {
        ResolveExtends(v.tree, q, b.st);
        assert s'.log[..|s.log|] == s'.log[..|b.st.log|][..|s.log|];
      }
    }
  }

  /** A top-level leaf that has not learned its max-age, missing from the
      memo, answers a first query successfully: its element is its metadata
      updated by the body, and it learns the offered max-age. A second query
      at the same location within that max-age, with the memo cleared, gets
      the same element from the cache and contacts nobody. */
  lemma CachedAnswerReused<A>(v: AppView, q1: Query, s: State<A>, now2: int)
    requires IsLeaf(v.tree) && v.maxAge == 0.0 && v.tree.addr !in s.memo
    requires var r := q1.net(v.tree.addr, LatLonDoc(q1.loc));
      Succeeded(r) && q1.now <= now2 && ((now2 - q1.now) as real) < r.maxAge
    ensures
      var r := q1.net(v.tree.addr, LatLonDoc(q1.loc));
      var first := AggStep(v, q1, s);
      var learned := StepAge(v, q1, s);
      var s2 := first.st.(memo := map[]);
      && first.doc == MetadataOf(v) + r.body
      && learned == r.maxAge
      && AggStep(v.(maxAge := learned), q1.(now := now2), s2) == Out(MetadataOf(v) + r.body, s2)
  {
    var r := q1.net(v.tree.addr, LatLonDoc(q1.loc));
    UnlearnedNeverFresh(s.cache, q1.loc, v.tree.addr, q1.now);
    RequestOutcome(v.tree.addr, LatLonDoc(q1.loc), q1, s);
    StoredThenFresh(s.cache, q1.loc, v.tree.addr, r.body, q1.now, r.maxAge, now2);
  }

  // ---------------------------------------------------------------------
  // The service's own call

  /** `process_request` answers a memoised service with no call; otherwise
      the last call it makes is to the service itself, with `RootPayload`,
      and the max-age `ResolveAge` gives is what that reply teaches. */
  lemma ResolveAgeFromOwnCall<A>(t: Tree, q: Query, s: State<A>, age: real)
    ensures t.addr in s.memo ==> ResolveAge(t, q, s, age) == age && Resolve(t, q, s).st.log == s.log
    ensures t.addr !in s.memo ==>
      var log := Resolve(t, q, s).st.log;
      var p := RootPayload(t, q, s);
      && |log| > |s.log|
      && log[|log| - 1] == Call(t.addr, p, q.net(t.addr, p))
      && ResolveAge(t, q, s, age) == Learn(age, log[|log| - 1].reply)
  {
    if t.addr !in s.memo {
      if |t.deps| == 0 {
        RequestOutcome(t.addr, LatLonDoc(q.loc), q, s);
      } else {
        var o := DepData(t, q, s);
        RequestOutcome(t.addr, o.doc + LatLonDoc(q.loc), q, o.st);
        DepDataContactsOnlyLeaves(t, q, s);
      }
    }
  }
}
