/** The middleware: the registry of connected services, the per-query memo
    and the TTL cache, with the handlers that register, remove and query,
    and the routines of the aggregation engine. The query routines are
    proved against their counterparts in module Engine; the registration
    handlers, `AddEntryToCache` and `CacheHit` state the new registry or
    cache directly. */
module Mix {
  import opened Documents
  import opened DependencyTree
  import opened TtlCache
  import opened Services
  import opened Engine
  import opened Registration

  /** A handler's reply: a text body, or the JSON list of a query, with
      the HTTP status. */
  datatype HttpReply = Text(body: string, status: int) | JsonList(items: seq<Doc>, status: int)

  function Abs(x: real): real
  {
    if x < 0.0 then -x else x
  }

  /** What a query needs to know about a registered service whose max-age
      is `maxAge`. */
  ghost function ViewOf(a: Microservice, maxAge: real): AppView
    requires a.Valid()
  {
    AppView(a.name, a.creator, a.tile, maxAge, a.Tree())
  }

  /** `convert_dependencies_to_objects`: fresh service objects, none with a
      learned max-age, whose trees are the conversion of the descriptors. */
  method ConvertDependenciesToObjects(dependencies: seq<DepSpec>) returns (dpList: seq<Microservice>)
    ensures forall i :: 0 <= i < |dpList| ==> dpList[i].Valid()
    ensures TreesOf(dpList) == Convert(dependencies)
    ensures forall n :: n in Reach(dpList) ==> fresh(n) && allocated(n) && n.maxAge == 0.0
    decreases dependencies, 1
  {
    dpList := [];
    for i := 0 to |dependencies|
      invariant forall j :: 0 <= j < |dpList| ==> dpList[j].Valid()
      invariant TreesOf(dpList) == Convert(dependencies[..i])
      invariant forall n :: n in Reach(dpList) ==> fresh(n) && allocated(n) && n.maxAge == 0.0
    {
      var m := NewService(dependencies, i);
      ReachAppend(dpList, m);
      assert Reach(dpList + [m]) == Reach(dpList) + m.Footprint();
      assert dependencies[..i + 1][..i] == dependencies[..i];
      dpList := dpList + [m];
    }
    assert dependencies[..|dependencies|] == dependencies;
  }

  /** One step of `convert_dependencies_to_objects`: the object for
      descriptor `i`, with its own descriptors converted below it. */
  method NewService(dependencies: seq<DepSpec>, i: nat) returns (m: Microservice)
    requires i < |dependencies|
    ensures m.Valid()
    ensures m.Tree() == Node(Address(dependencies[i].ip, dependencies[i].port), Convert(dependencies[i].dependencies))
    ensures forall n :: n in m.Footprint() ==> fresh(n) && allocated(n) && n.maxAge == 0.0
    decreases dependencies, 0
  {
    var x := dependencies[i];
    if x.dependencies != [] {
      var sub := ConvertDependenciesToObjects(x.dependencies);
      m := new Microservice(Address(x.ip, x.port), sub);
      assert m.below == Reach(sub);
    } else {
      m := new Microservice(Address(x.ip, x.port), []);
      assert m.below == {};
    }
    TreeOfService(m);
  }

  /** A registry: each service filed under its own address, and no two
      services sharing a node. */
  ghost predicate Registry(apps: map<string, Microservice>)
  {
    && (forall a :: a in apps ==> apps[a].ip == a && apps[a].Valid())
    && (forall a, b :: a in apps && b in apps && a != b ==> apps[a].Footprint() !! apps[b].Footprint())
  }

  /** Every node of every service of a registry. */
  ghost function NodesOf(apps: map<string, Microservice>): set<Microservice>
  {
    set a, n | a in apps && n in apps[a].Footprint() :: n
  }

  /** No other service of a registry lies in a service's footprint. */
  lemma OthersOutside(apps: map<string, Microservice>, key: string)
    requires Registry(apps) && key in apps
    ensures forall a :: a in apps && a != key ==> apps[a] !in apps[key].Footprint()
  {
    forall a | a in apps && a != key
      ensures apps[a] !in apps[key].Footprint()
    {
      assert apps[a] in apps[a].Footprint();
    }
  }

  /** Filing a valid service under its own, new address, with no node in
      common with those already filed, leaves a registry. */
  lemma RegistryInsert(apps: map<string, Microservice>, m: Microservice)
    requires Registry(apps) && m.Valid() && m.ip !in apps
    requires forall a :: a in apps ==> apps[a].Footprint() !! m.Footprint()
    ensures Registry(apps[m.ip := m])
  {
  }

  /** Removing services from a registry leaves a registry. */
  lemma RegistryShrinks(apps: map<string, Microservice>, apps': map<string, Microservice>)
    requires Registry(apps)
    requires forall a :: a in apps' ==> a in apps && apps'[a] == apps[a]
    ensures Registry(apps')
  {
  }

  /** The views of the services of a registry whose max-ages are `ages`. */
  ghost function Snapshot(apps: map<string, Microservice>, ages: map<string, real>): (snap: map<string, AppView>)
    requires forall a :: a in apps ==> apps[a].Valid()
    requires apps.Keys <= ages.Keys
    ensures snap.Keys == apps.Keys
  {
    map a | a in apps :: ViewOf(apps[a], ages[a])
  }

  /** `views` lists every view of `snap` exactly once, in some order. */
  ghost predicate Enumerates(views: seq<AppView>, snap: map<string, AppView>)
  {
    && |views| == |snap.Keys|
    && (forall i :: 0 <= i < |views| ==> views[i].tree.addr in snap && views[i] == snap[views[i].tree.addr])
    && (forall i, k :: 0 <= i < k < |views| ==> views[i].tree.addr != views[k].tree.addr)
  }

  /** The state of the `POST_MIX` loop over a snapshot `snap` of the
      registry's views: `keys` are the services answered so far, in order,
      each once and none still pending; `views` are their views; and the
      reply so far with the state reached is the aggregation of those
      views. */
  ghost predicate Gathered(snap: map<string, AppView>, pending: set<string>, keys: seq<string>,
                           views: seq<AppView>, r: seq<Doc>, st: State<Microservice>,
                           q: Query, s0: State<Microservice>)
  {
    && pending <= snap.Keys
    && |keys| == |views|
    && |keys| + |pending| == |snap.Keys|
    && (forall i :: 0 <= i < |keys| ==> keys[i] in snap && keys[i] !in pending && views[i] == snap[keys[i]])
    && (forall i, k :: 0 <= i < k < |keys| ==> keys[i] != keys[k])
    && Batch(r, st) == Aggregate(views, q, s0)
  }

  /** Answering one pending service keeps the loop state. */
  lemma GatheredStep(snap: map<string, AppView>, pending: set<string>, keys: seq<string>,
                     views: seq<AppView>, r: seq<Doc>, st: State<Microservice>,
                     q: Query, s0: State<Microservice>, key: string, o: Out<Microservice>)
    requires Gathered(snap, pending, keys, views, r, st, q, s0)
    requires key in pending
    requires o == AggStep(snap[key], q, st)
    ensures Gathered(snap, pending - {key}, keys + [key], views + [snap[key]], r + [o.doc], o.st, q, s0)
  {
    assert (views + [snap[key]])[..|views|] == views;
    assert |pending - {key}| == |pending| - 1;
  }

  /** When nothing is pending, every service of the snapshot was answered
      once; a snapshot filed by address gives views with distinct
      addresses. */
  lemma GatheredDone(snap: map<string, AppView>, keys: seq<string>, views: seq<AppView>, r: seq<Doc>,
                     st: State<Microservice>, q: Query, s0: State<Microservice>)
    requires Gathered(snap, {}, keys, views, r, st, q, s0)
    requires forall a :: a in snap ==> snap[a].tree.addr == a
    ensures Enumerates(views, snap)
    ensures Batch(r, st) == Aggregate(views, q, s0)
  {
  }

  /** Answered in the order `keys`, the services of `views` hold the
      max-ages `learned`, in that order. */
  lemma AnsweredAges(apps: map<string, Microservice>, snap: map<string, AppView>, keys: seq<string>,
                     views: seq<AppView>, learned: seq<real>)
    requires |keys| == |views| == |learned|
    requires forall a :: a in snap ==> snap[a].tree.addr == a
    requires forall i :: 0 <= i < |keys| ==> keys[i] in snap && views[i] == snap[keys[i]]
    requires AgesByKey(apps, keys, learned)
    ensures AgesLearned(apps, views, learned)
  {
  }

  /** The services `pending` of `apps` still hold the max-ages `ages`. */
  ghost predicate AgesKept(apps: map<string, Microservice>, pending: set<string>, ages: map<string, real>)
    reads apps.Values
  {
    forall a :: a in pending ==> a in apps && a in ages && apps[a].maxAge == ages[a]
  }

  /** Service `keys[i]` of `apps` holds the max-age `learned[i]`. */
  ghost predicate AgesByKey(apps: map<string, Microservice>, keys: seq<string>, learned: seq<real>)
    reads apps.Values
  {
    && |keys| == |learned|
    && forall i :: 0 <= i < |keys| ==> keys[i] in apps && apps[keys[i]].maxAge == learned[i]
  }

  /** Each service of `views` is registered in `apps` and now holds the
      max-age `learned` gives at its position. */
  ghost predicate AgesLearned(apps: map<string, Microservice>, views: seq<AppView>, learned: seq<real>)
    reads apps.Values
  {
    && |learned| == |views|
    && forall i :: 0 <= i < |views| ==>
         views[i].tree.addr in apps && apps[views[i].tree.addr].maxAge == learned[i]
  }

  /** The views of a registry carry their own addresses. */
  lemma SnapshotAddresses(apps: map<string, Microservice>, ages: map<string, real>)
    requires Registry(apps) && apps.Keys <= ages.Keys
    ensures forall a :: a in Snapshot(apps, ages) ==> Snapshot(apps, ages)[a].tree.addr == a
  {
  }

  /** A registry without self-dependent services gives views without
      them. */
  lemma EnumeratedNoSelfDependency(views: seq<AppView>, apps: map<string, Microservice>, ages: map<string, real>)
    requires Registry(apps) && apps.Keys <= ages.Keys
    requires Enumerates(views, Snapshot(apps, ages))
    requires forall a :: a in apps ==> NoSelfDependency(apps[a].Tree())
    ensures forall i :: 0 <= i < |views| ==> NoSelfDependency(views[i].tree)
  {
  }

  /** A query over an enumeration of a registry leaves a registry and,
      when no service depends on itself, contacts no service again after it
      answered successfully. */
  lemma EnumeratedQuery(views: seq<AppView>, ages: map<string, real>, q: Query, s: State<Microservice>)
    requires Registry(s.apps) && s.apps.Keys <= ages.Keys && s.memo == map[]
    requires Enumerates(views, Snapshot(s.apps, ages))
    ensures var s' := Aggregate(views, q, s).st;
      && Registry(s'.apps)
      && ((forall a :: a in s.apps ==> NoSelfDependency(s.apps[a].Tree())) ==>
            forall i, j :: |s.log| <= i < j < |s'.log| && Succeeded(s'.log[i].reply) ==> s'.log[j].addr != s'.log[i].addr)
  {
    AggregateShrinksRegistry(views, q, s);
    RegistryShrinks(s.apps, Aggregate(views, q, s).st.apps);
    if forall a :: a in s.apps ==> NoSelfDependency(s.apps[a].Tree()) {
      EnumeratedNoSelfDependency(views, s.apps, ages);
      QueryContactsOnceAfterSuccess(views, q, s);
    }
  }

  class Mix {
    /** `connected_apps`: the registered services by address. */
    var connectedApps: map<string, Microservice>
    /** `processed`: the responses obtained during the current query. */
    var processed: map<string, Doc>
    /** `cache`: the last response per location and address. */
    var cache: Cache
    /** Every outbound call made so far. */
    ghost var log: seq<Call>

    /** Each service is filed under its own address, and no two registered
        services share a node. */
    ghost predicate Valid()
      reads this
    {
      Registry(connectedApps)
    }

    /** The learned max-age of each registered service. */
    ghost function Ages(): (ages: map<string, real>)
      reads this, connectedApps.Values
      ensures ages.Keys == connectedApps.Keys
    {
      map a | a in connectedApps :: connectedApps[a].maxAge
    }

    ghost function Current(): State<Microservice>
      reads this
    {
      Engine.State(connectedApps, processed, cache, log)
    }

    constructor ()
      ensures Valid()
      ensures connectedApps == map[] && processed == map[] && cache == map[] && log == []
    {
      connectedApps := map[];
      processed := map[];
      cache := map[];
      log := [];
    }

    /** `add_microservice`: the first missing required key is reported with
        400 and nothing changes; otherwise the service is inserted unless
        its address is already registered, in which case the registered
        object, with its metadata, stays. */
    method AddMicroservice(payload: Payload) returns (resp: HttpReply)
      requires Valid()
      modifies this
      ensures Valid()
      ensures processed == old(processed) && cache == old(cache) && log == old(log)
      ensures !Complete(payload.fields) ==>
        var k := MissingIndex(RequiredKeys, payload.fields);
        && k < |RequiredKeys|
        && resp == Text(MissingKeyMessage(RequiredKeys[k]), 400)
        && connectedApps == old(connectedApps)
      ensures Complete(payload.fields) ==>
        var f := payload.fields;
        var addr := Address(f["ip"], f["port"]);
        && resp == Text("Success", 200)
        && (addr in old(connectedApps) ==> connectedApps == old(connectedApps))
        && (addr !in old(connectedApps) ==>
              && connectedApps.Keys == old(connectedApps).Keys + {addr}
              && (forall a :: a in old(connectedApps) ==> connectedApps[a] == old(connectedApps)[a])
              && var m := connectedApps[addr];
              && fresh(m) && m.maxAge == 0.0
              && m.Tree() == Node(addr, Convert(payload.dependencies))
              && m.name == Some(f["name"]) && m.creator == Some(f["creator"]) && m.tile == Some(f["tile"]))
    {
      var k := FirstMissing(RequiredKeys, payload.fields);
      CompleteIffNoneMissing(payload.fields);
      if k < |RequiredKeys| {
        return Text(MissingKeyMessage(RequiredKeys[k]), 400);
      }
      var f := payload.fields;
      var dependencyList := ConvertDependenciesToObjects(payload.dependencies);
      var m := new Microservice(Address(f["ip"], f["port"]), dependencyList,
                                Some(f["name"]), Some(f["creator"]), Some(f["tile"]));
      TreeOfService(m);
      assert m.Tree() == Node(m.ip, Convert(payload.dependencies));
      forall a | a in connectedApps ensures connectedApps[a].Footprint() !! m.Footprint() {
        assert forall n :: n in m.Footprint() ==> fresh(n);
      }
      Register(m);
      return Text("Success", 200);
    }

    /** Files the service `m`, which shares no node with the registered
        ones, under its address unless that address is already taken. */
    method Register(m: Microservice)
      requires Valid() && m.Valid()
      requires forall a :: a in connectedApps ==> connectedApps[a].Footprint() !! m.Footprint()
      modifies this
      ensures Valid()
      ensures processed == old(processed) && cache == old(cache) && log == old(log)
      ensures m.ip in old(connectedApps) ==> connectedApps == old(connectedApps)
      ensures m.ip !in old(connectedApps) ==>
        && connectedApps.Keys == old(connectedApps).Keys + {m.ip}
        && (forall a :: a in old(connectedApps) ==> connectedApps[a] == old(connectedApps)[a])
        && connectedApps[m.ip] == m
    {
      if m.ip !in connectedApps {
        RegistryInsert(connectedApps, m);
        connectedApps := connectedApps[m.ip := m];
      }
    }

    /** `remove_microservice`: 400 without `ip` or `port`; otherwise the
        address is discarded, and 404 is returned exactly when it was not
        registered. */
    method RemoveMicroservice(j: map<string, string>) returns (resp: HttpReply)
      requires Valid()
      modifies this
      ensures Valid()
      ensures processed == old(processed) && cache == old(cache) && log == old(log)
      ensures ("ip" !in j || "port" !in j) ==>
        resp == Text("Invalid Input", 400) && connectedApps == old(connectedApps)
      ensures "ip" in j && "port" in j ==>
        var addr := Address(j["ip"], j["port"]);
        && connectedApps == old(connectedApps) - {addr}
        && (resp == Text("Not Found", 404) <==> addr !in old(connectedApps))
        && (addr in old(connectedApps) ==> resp == Text("Success", 200))
    {
      var previousLen := |connectedApps|;
      if "ip" !in j || "port" !in j {
        return Text("Invalid Input", 400);
      }
      var ip := Address(j["ip"], j["port"]);
      var m := new Microservice(ip, []);
      MapRemoveSize(connectedApps, m.ip);
      connectedApps := connectedApps - {m.ip};
      if |connectedApps| == previousLen {
        return Text("Not Found", 404);
      }
      return Text("Success", 200);
    }

    /** `cache_hit`: the source's early-exit tests agree with the reference
        rule `Fresh`. */
    function CacheHit(latlong: Location, service: Microservice, now: int): (hit: bool)
      reads this, service
      ensures hit == Fresh(cache, latlong, service.ip, service.maxAge, now)
    {
      if service.maxAge == 0.0 || latlong !in cache || service.ip !in cache[latlong] then false
      else ((now - cache[latlong][service.ip].time) as real) < service.maxAge
    }

    /** `add_entry_to_cache`: learn the max-age if it is not learned yet,
        and store the body under `(latlon, address)`. */
    method AddEntryToCache(latlon: Location, service: Microservice, response: Reply, now: int)
      requires response.Response?
      modifies this`cache, service`maxAge
      ensures service.maxAge == LearnMaxAge(old(service.maxAge), response.maxAge)
      ensures cache == Store(old(cache), latlon, service.ip, response.body, now)
    {
      if service.maxAge == 0.0 {
        service.maxAge := response.maxAge;
      }
      if latlon !in cache {
        cache := cache[latlon := map[service.ip := Entry(response.body, now)]];
      } else {
        cache := cache[latlon := cache[latlon][service.ip := Entry(response.body, now)]];
      }
    }

    /** `make_im_request`: one outbound call and its failure policy. */
    method MakeImRequest(service: Microservice, j: Doc, q: Query) returns (r: Doc)
      modifies this, service
      ensures Out(r, Current()) == Request(service.ip, j, q, old(Current()))
      ensures service.maxAge == Learn(old(service.maxAge), q.net(service.ip, j))
    {
      var response := q.net(service.ip, j);
      log := log + [Call(service.ip, j, response)];
      if response.Unreachable? {
        connectedApps := connectedApps - {service.ip};
        return map[];
      }
      if response.status >= 400 {
        return map[];
      }
      AddEntryToCache(q.loc, service, response, q.now);
      processed := processed[service.ip := response.body];
      return response.body;
    }

    /** `process_request`. */
    method ProcessRequest(service: Microservice, q: Query) returns (r: Doc)
      requires service.Valid()
      modifies this, service.Footprint()
      ensures Out(r, Current()) == Resolve(service.Tree(), q, old(Current()))
      ensures service.maxAge == ResolveAge(service.Tree(), q, old(Current()), old(service.maxAge))
      ensures forall n :: n in service.Footprint() && old(n.maxAge) != 0.0 ==> n.maxAge == old(n.maxAge)
    {
      var latlonData := LatLonDoc(q.loc);
      if service.ip in processed {
        return processed[service.ip];
      }
      if |service.dependencies| == 0 {
        r := MakeImRequest(service, latlonData, q);
      } else {
        var dependencyJson := GetDependencyData(service, q);
        dependencyJson := dependencyJson + latlonData;
        r := MakeImRequest(service, dependencyJson, q);
      }
    }

    /** `get_dependency_data`: only nodes strictly below `service` may
        change. */
    method GetDependencyData(service: Microservice, q: Query) returns (j: Doc)
      requires service.Valid()
      modifies this, service.below
      ensures Out(j, Current()) == DepData(service.Tree(), q, old(Current()))
      ensures forall n :: n in service.below && old(n.maxAge) != 0.0 ==> n.maxAge == old(n.maxAge)
      decreases service.depth
    {
      ghost var s0 := Current();
      ghost var ts := service.Tree().deps;
      j := map[];
      for i := 0 to |service.dependencies|
        invariant DepsLoop(ts[i..], j, q, Current()) == DepsLoop(ts, map[], q, s0)
        invariant forall n :: n in service.below && old(n.maxAge) != 0.0 ==> n.maxAge == old(n.maxAge)
      {
        var dependency := service.dependencies[i];
        assert ts[i..][0] == dependency.Tree() && ts[i..][1..] == ts[i + 1..];
        if |dependency.dependencies| > 0 {
          ghost var jIn, sIn := j, Current();
          ghost var dts := dependency.Tree().deps;
          for k := 0 to |dependency.dependencies|
            invariant GrandLoop(dts[k..], j, q, Current()) == GrandLoop(dts, jIn, q, sIn)
            invariant forall n :: n in service.below && old(n.maxAge) != 0.0 ==> n.maxAge == old(n.maxAge)
          {
            var dd := dependency.dependencies[k];
            assert dts[k..][0] == dd.Tree() && dts[k..][1..] == dts[k + 1..];
            var part := GetDependencyData(dd, q);
            j := j + part;
          }
        } else {
          if dependency.ip in processed {
            j := j + processed[dependency.ip];
          } else {
            var latlonData := LatLonDoc(q.loc);
            var part := MakeImRequest(dependency, latlonData, q);
            j := j + part;
          }
        }
      }
    }

    /** One element of the `POST_MIX` reply: the service's metadata merged
        with its cached document on a hit, or with a fresh resolution. */
    method ServiceEntry(app: Microservice, q: Query) returns (j: Doc)
      requires app.Valid()
      modifies this, app.Footprint()
      ensures Out(j, Current()) == AggStep(ViewOf(app, old(app.maxAge)), q, old(Current()))
      ensures app.maxAge == StepAge(ViewOf(app, old(app.maxAge)), q, old(Current()))
      ensures forall n :: n in app.Footprint() && old(n.maxAge) != 0.0 ==> n.maxAge == old(n.maxAge)
    {
      j := Metadata(app.name, app.creator, app.tile);
      if CacheHit(q.loc, app, q.now) {
        j := j + cache[q.loc][app.ip].doc;
      } else {
        var body := ProcessRequest(app, q);
        j := j + body;
      }
    }

    /** The same top-level leaf service answered by two `POST_MIX`
        iterations at one location, the memo cleared in between as each
        query clears it. The first learns the max-age its successful
        answer offers; the second, within that max-age, gets the same
        element from the cache and contacts nobody. */
    method AnswerTwice(app: Microservice, q1: Query, now2: int) returns (j1: Doc, j2: Doc)
      requires app.Valid() && app.dependencies == [] && app.maxAge == 0.0 && app.ip !in processed
      requires var r := q1.net(app.ip, LatLonDoc(q1.loc));
        Succeeded(r) && q1.now <= now2 && ((now2 - q1.now) as real) < r.maxAge
      modifies this, app.Footprint()
      ensures var r := q1.net(app.ip, LatLonDoc(q1.loc));
        && j1 == Metadata(app.name, app.creator, app.tile) + r.body
        && j2 == j1
        && app.maxAge == r.maxAge
        && log == old(log) + [Call(app.ip, LatLonDoc(q1.loc), r)]
    {
      ghost var v := ViewOf(app, app.maxAge);
      ghost var s := Current();
      CachedAnswerReused(v, q1, s, now2);
      RequestOutcome(app.ip, LatLonDoc(q1.loc), q1, s);
      j1 := ServiceEntry(app, q1);
      processed := map[];
      j2 := ServiceEntry(app, q1.(now := now2));
    }

    /** One pass of the `POST_MIX` loop: answer the pending service `key`,
        leaving the max-ages of the services still pending as they were. */
    method AnswerOne(app: Microservice, q: Query, ghost apps: map<string, Microservice>, ghost ages: map<string, real>,
                     ghost snap: map<string, AppView>, ghost pending: set<string>,
                     ghost keys: seq<string>, ghost views: seq<AppView>, ghost r: seq<Doc>,
                     ghost s0: State<Microservice>, ghost key: string) returns (j: Doc)
      requires Registry(apps) && key in pending && pending <= apps.Keys && apps[key] == app
      requires apps.Keys <= ages.Keys && snap == Snapshot(apps, ages)
      requires AgesKept(apps, pending, ages)
      requires Gathered(snap, pending, keys, views, r, Current(), q, s0)
      requires AgesByKey(apps, keys, AgesAfter(views, q, s0))
      modifies this, app.Footprint()
      ensures AgesKept(apps, pending - {key}, ages)
      ensures Gathered(snap, pending - {key}, keys + [key], views + [snap[key]], r + [j], Current(), q, s0)
      ensures AgesByKey(apps, keys + [key], AgesAfter(views + [snap[key]], q, s0))
    {
      ghost var st := Current();
      OthersOutside(apps, key);
      j := ServiceEntry(app, q);
      GatheredStep(snap, pending, keys, views, r, st, q, s0, key, Out(j, Current()));
      assert (views + [snap[key]])[..|views|] == views;
    }

    /** `POST_MIX`: validate the location, clear the memo, and build one
        element per service of a snapshot of the registry, in an unspecified
        order, returned as the ghost `views`. */
    method PostMix(lat: real, lon: real, now: int, net: Network) returns (resp: HttpReply, ghost views: seq<AppView>)
      requires Valid()
      modifies this, NodesOf(connectedApps)
      ensures Valid()
      ensures Abs(lat) > 90.0 ==>
        resp == Text("Invalid latitude", 400) && unchanged(this) && unchanged(old(NodesOf(connectedApps)))
      ensures Abs(lat) <= 90.0 && Abs(lon) > 180.0 ==>
        resp == Text("Invalid longitude", 400) && unchanged(this) && unchanged(old(NodesOf(connectedApps)))
      ensures Abs(lat) <= 90.0 && Abs(lon) <= 180.0 ==>
        && Enumerates(views, Snapshot(old(connectedApps), old(Ages())))
        && resp.JsonList? && resp.status == 200
        && Batch(resp.items, Current()) ==
           Aggregate(views, Query(Location(lat, lon), now, net), old(Current()).(memo := map[]))
        && AgesLearned(old(connectedApps), views,
                       AgesAfter(views, Query(Location(lat, lon), now, net), old(Current()).(memo := map[])))
      ensures Abs(lat) <= 90.0 && Abs(lon) <= 180.0 &&
              (forall a :: a in old(connectedApps) ==> NoSelfDependency(old(connectedApps)[a].Tree())) ==>
        forall i, k :: |old(log)| <= i < k < |log| && Succeeded(log[i].reply) ==> log[k].addr != log[i].addr
    {
      views := [];
      if Abs(lat) > 90.0 {
        return Text("Invalid latitude", 400), views;
      }
      if Abs(lon) > 180.0 {
        return Text("Invalid longitude", 400), views;
      }
      var r;
      r, views := MixAt(Query(Location(lat, lon), now, net));
      resp := JsonList(r, 200);
    }

    /** `POST_MIX` at a valid location: the reply elements, the max-ages
        learned, and no service contacted again after it answered
        successfully. */
    method MixAt(q: Query) returns (r: seq<Doc>, ghost views: seq<AppView>)
      requires Valid()
      modifies this, NodesOf(connectedApps)
      ensures Valid()
      ensures Enumerates(views, Snapshot(old(connectedApps), old(Ages())))
      ensures Batch(r, Current()) == Aggregate(views, q, old(Current()).(memo := map[]))
      ensures AgesLearned(old(connectedApps), views, AgesAfter(views, q, old(Current()).(memo := map[])))
      ensures (forall a :: a in old(connectedApps) ==> NoSelfDependency(old(connectedApps)[a].Tree())) ==>
        forall i, k :: |old(log)| <= i < k < |log| && Succeeded(log[i].reply) ==> log[k].addr != log[i].addr
    {
      ghost var apps0, ages := connectedApps, Ages();
      ghost var s0 := Engine.State(connectedApps, map[], cache, log);
      r, views := AnswerEach(q, ages, NodesOf(apps0));
      EnumeratedQuery(views, ages, q, s0);
    }

    /** The body of `POST_MIX` once the location is valid: clear the memo,
        then, over a copy of the registry taken in an unspecified order,
        build one reply element per registered service. */
    method AnswerEach(q: Query, ghost ages: map<string, real>, ghost nodes: set<Microservice>)
      returns (r: seq<Doc>, ghost views: seq<AppView>)
      requires Valid()
      requires ages.Keys == connectedApps.Keys
      requires forall a :: a in connectedApps ==> connectedApps[a].maxAge == ages[a] && connectedApps[a].Footprint() <= nodes
      modifies this, nodes
      ensures Enumerates(views, Snapshot(old(connectedApps), ages))
      ensures Batch(r, Current()) == Aggregate(views, q, old(Current()).(memo := map[]))
      ensures AgesLearned(old(connectedApps), views, AgesAfter(views, q, old(Current()).(memo := map[])))
    {
      ghost var snap := Snapshot(connectedApps, ages);
      processed := map[];
      ghost var s0 := Current();
      r := [];
      views := [];
      var appList := connectedApps;
      var pending := appList.Keys;
      ghost var keys: seq<string> := [];
      while pending != {}
        invariant Gathered(snap, pending, keys, views, r, Current(), q, s0)
        invariant AgesKept(appList, pending, ages)
        invariant AgesByKey(appList, keys, AgesAfter(views, q, s0))
        decreases pending
      {
        var key :| key in pending;
        var app := appList[key];
        assert app.Footprint() <= nodes;
        var j := AnswerOne(app, q, appList, ages, snap, pending, keys, views, r, s0, key);
        r := r + [j];
        views := views + [snap[key]];
        keys := keys + [key];
        pending := pending - {key};
      }
      SnapshotAddresses(appList, ages);
      GatheredDone(snap, keys, views, r, Current(), q, s0);
      AnsweredAges(appList, snap, keys, views, AgesAfter(views, q, s0));
    }
  }

  lemma MapRemoveSize<K, V>(m: map<K, V>, k: K)
    ensures |m - {k}| == if k in m then |m| - 1 else |m|
  {
    assert (m - {k}).Keys == m.Keys - {k};
    assert |m - {k}| == |(m - {k}).Keys|;
    assert |m| == |m.Keys|;
  }
}
