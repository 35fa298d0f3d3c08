# MIX middleware, modelled in Dafny

MIX is a middleware aggregator. Information microservices (IMs) register with it, each with a tree of
dependency services. A query names a location. MIX then asks every registered IM for its document,
tags each answer with that IM's `_metadata` (name, creator, tile) and returns the list. An IM with
dependencies is sent one request, after MIX has gathered its dependency data: each leaf dependency
contributes its own document, and each dependency with children contributes its children's dependency
data instead of its own document. The merged data, overwritten by the location, is the IM's payload.
Two tables cut the number of outbound calls:

- the per-query memo `processed`, keyed by address;
- a TTL cache keyed by location and then by address.

A service object learns its max-age from the first successful response whose `Cache-Control` value
is not 0. After that the value never changes. A response offering 0 leaves the service unlearned, so a
later response can still teach it. The max-age belongs to the object, not the address. A top-level
service and a dependency node with the same address are different objects and learn separately.

The project has seven modules:

- `Documents` (documents.dfy): JSON documents. A Python `dict.update` is Dafny's right-biased map union `a + b`.
- `DependencyTree` (dependency_tree.dfy): the abstract dependency tree, its leaves, and the no-self-dependency condition.
- `Registration` (registration.dfy): the required-key check and the conversion of the nested dependency payload into trees.
- `TtlCache` (ttl_cache.dfy): the cache table, its freshness rule, and `parse_cache_header`.
- `Services` (microservice.dfy): class `Microservice`.
  - Its address, dependencies and metadata are constants and its max-age is a mutable field.
  - Equality, inequality, hashing and `repr` are address-only functions.
  - Ghost fields `depth` and `below` give termination and the footprint of a service's tree.
- `Engine` (engine.dfy): the aggregation routines as pure functions over an abstract state (registry, memo, cache, log of calls), each returning the document and the new state. The lemmas about the engine live here.
- `Mix` (mix.dfy): class `Mix`, whose fields are the registry, the memo and the cache, plus a ghost log of calls.
  - The handlers and the routines that change state are imperative methods on it, with the same branches and loops as the source. The query routines are proved against their counterparts in `Engine`: `MakeImRequest` against `Engine.Request`, `ProcessRequest` against `Engine.Resolve`, `GetDependencyData` against `Engine.DepData`, `ServiceEntry` against `Engine.AggStep`, and the query loop (`AnswerEach`, `MixAt`, `PostMix`) against `Engine.Aggregate` and `Engine.AgesAfter`. The registration handlers and `AddEntryToCache` have no counterpart in `Engine`; their contracts state the new registry or cache directly.
  - `cache_hit` only reads, so it is the function `Mix.Mix.CacheHit`.
  - `convert_dependencies_to_objects` is the module-level method `Mix.ConvertDependenciesToObjects`. It builds each object with `Mix.NewService`.
  - `parse_cache_header` is the function `TtlCache.ParseCacheHeader`.

The remote services form a `Network` function from address and payload to `Unreachable` or
`Response(status, body, maxAge)`, where `maxAge` is the value the `Cache-Control` header carries.
The clock is an integer `now` passed to each query. Set iteration order is unspecified. The query
method therefore returns, as a ghost output, the order `views` in which it answered the services.
It proves that `views` lists each service of the registry as it was at the start of the query exactly
once, and that the reply is the aggregation over that order.

The model keeps these behaviours of the code:

- Re-registering an address already present keeps the original object and its metadata, as Python's `set.add` does (app.py:39). The record is not replaced.
- In `get_dependency_data`, a dependency with children is never contacted. Each of its children is handled by a recursive call that looks only at that child's own dependencies, so leaf children contribute nothing and are never called (app.py:138-140). `Engine.LeafGrandchildrenSilent` states this.
- Registration builds the address as `ip + ':' + port` (app.py:32, app.py:49, app.py:51).
- Only successful replies are memoised (app.py:161-166). A service whose call failed can therefore be called again in the same query. For example, if services a and b both depend on leaf c and c answers 500, c is called twice. What holds is weaker than "at most once per query": a service that answered successfully is not contacted again in that query.
  - `Engine.QueryContactsOnceAfterSuccess` proves this property under the hypothesis `NoSelfDependency`: no service's address reappears as a leaf of its own dependency tree. The hypothesis is sufficient, not necessary. A leaf that is a direct child of a dependency with children is never called (app.py:138-140), so such a leaf does no harm. A leaf deeper below such a dependency is called by the recursive `get_dependency_data(dd)` (app.py:136-149), so the root's address there leads to a second contact of the root after it answered successfully.
  - Without the hypothesis the root can be contacted again after it answered successfully. `process_request` contacts the root after gathering its dependency data, without looking at the memo again (app.py:129-131). `Engine.SelfDependencyContactedTwice` exhibits such a double contact.

## Model

| member | source | states |
|---|---|---|
| Registration.FirstMissing | app.py:24-27 | the key check stops at the position of the first required key absent from the payload, or at the end when all are present |
| Registration.CompleteIffNoneMissing | app.py:24-27 | the check finds no missing key exactly when port, ip, name, creator and tile are all present; a missing `port` is reported first, then `ip` |
| Registration.ConvertAt | app.py:44-53 | descriptor `i` becomes dependency `i`, addressed `ip:port`, with its own descriptors converted below it (length, order and nesting kept) |
| TtlCache.Fresh | app.py:186-199 | reference rule for a cache hit: a learned (non-zero) max-age, an entry for exactly this location and address, and less than the max-age elapsed since it was stored; `Mix.Mix.CacheHit` is proved equal to it |
| TtlCache.Store | app.py:179-183 | reference definition of the table update: a new inner table for a new location, otherwise an overwrite of one inner key; `TtlCache.StoreOverwritesOneEntry` states its effect |
| TtlCache.StoreOverwritesOneEntry | app.py:179-183 | storing changes exactly the `(location, address)` entry, to the body and the clock reading; every other entry is unchanged |
| TtlCache.UnlearnedNeverFresh | app.py:187-189 | with max-age 0 nothing is served from the cache, whatever the table holds |
| TtlCache.StoredThenFresh | app.py:174-199 | right after a store, the entry hits exactly while the max-age is learned and less than it has elapsed |
| TtlCache.Split | app.py:171 | `split` gives at least one piece and no piece contains the separator |
| TtlCache.SplitJoin | app.py:171 | joining the pieces of a split with the separator gives back the header |
| TtlCache.ParseCacheHeader | app.py:170-171 | the second `=`-separated field of the header, or nothing when there is none (Python's IndexError); `TtlCache.ParseDirective` states both cases |
| TtlCache.ParseDirective | app.py:170-171 | a header `directive=value` yields `value`, and a header without `=` yields nothing (the IndexError) |
| Services.Microservice.constructor | microservice.py:9-15 | a new service has the given address, dependency list and metadata (None by default), and max-age 0 |
| Services.Microservice.Eq | microservice.py:20-21 | `__eq__` compares addresses only; `Services.EqIsAddressEquality` and `Services.EqIsEquivalence` state its properties |
| Services.Microservice.Ne | microservice.py:23-24 | `__ne__` is the negation of `__eq__`; `Services.EqIsAddressEquality` states it |
| Services.Microservice.Hash | microservice.py:17-18 | `__hash__` is the string hash of the address alone; `Services.EqualServicesHashEqually` states that equal services hash equally |
| Services.Microservice.Repr | microservice.py:26-27 | the representation ends with ` at ` followed by the address |
| Services.EqIsAddressEquality | microservice.py:20-24 | two services are equal exactly when their addresses are, and `!=` is the negation of `==` |
| Services.EqIsEquivalence | microservice.py:20-21 | equality is reflexive, symmetric and transitive |
| Services.EqualServicesHashEqually | microservice.py:17-21 | equal services hash equally, for any string hash |
| Services.TreeOfService | microservice.py:9-15 | a service's tree is its address over the trees of its dependency list |
| Engine.LearnMaxAge | app.py:175-177 | the learn-once rule: an unlearned (0) max-age takes the offered value, a learned one is kept; `Engine.LearnedMaxAgeSticks` states its properties |
| Engine.LearnedMaxAgeSticks | app.py:175-177 | a learned max-age never changes; the first non-zero offer is kept against later offers; an offer of 0 leaves the service unlearned |
| Engine.Learn | app.py:161-177 | a service learns only from a successful reply to its own call (an unreachable service or an error status teaches nothing) |
| Engine.Request | app.py:154-167 | reference definition of `make_im_request`; `Engine.RequestOutcome` states its three outcomes |
| Engine.Resolve | app.py:118-131 | reference definition of `process_request`: memo first, then a leaf is sent the location and any other node its dependency data overwritten by the location; `Engine.MemoHitMakesNoCall`, `Engine.LeafSendsLocation` and `Engine.NonLeafSendsMergedData` state the three branches |
| Engine.DepData | app.py:134-151 | reference definition of `get_dependency_data`: both loops, starting from `{}`; `Engine.DepDataContactsOnlyLeaves` and `Engine.TwoLeavesMerged` state what it contacts and merges |
| Engine.DepsLoop | app.py:136-149 | the outer loop: a dependency with children merges its children's dependency data, a leaf is answered from the memo or contacted with the location; `Engine.LeafGrandchildrenSilent` is about it |
| Engine.GrandLoop | app.py:139-140 | the inner loop over a dependency's children, merging each child's dependency data in order |
| Engine.RootPayload | app.py:119-131 | the payload sent to the service itself: the location for a leaf, the dependency data overwritten by the location otherwise; `Engine.ResolveAgeFromOwnCall` ties it to the logged call |
| Engine.ResolveAge | app.py:118-131 | the max-age of the service after `process_request`: unchanged when memoised, otherwise learned from the reply to its own call; `Engine.ResolveAgeFromOwnCall` states this against the log |
| Engine.AggStep | app.py:97-113 | reference definition of one iteration of the `POST_MIX` loop: metadata updated by the cached document on a hit, by `process_request` otherwise |
| Engine.StepBody | app.py:107-111 | the document an iteration merges into the metadata: cached on a hit, resolved otherwise; `Engine.AggregateShape` uses it |
| Engine.StepAge | app.py:107-111 | the top-level service's max-age after an iteration: kept on a hit, `Engine.ResolveAge` otherwise |
| Engine.Aggregate | app.py:95-115 | reference definition of the `POST_MIX` loop over the views in a given order; `Engine.AggregateShape` and `Engine.AggregateShrinksRegistry` state its properties |
| Engine.AgesAfter | app.py:95-115 | one max-age per top-level service after the loop, in the order of the views; `Engine.AgesAfterAt` and `Engine.LearnedAgesKept` state its properties |
| Engine.RequestOutcome | app.py:154-167 | one call is logged. Unreachable: every registry entry with that address is dropped, `{}` is returned, and memo and cache are kept. Status 400 or above: `{}` is returned and the registry, memo and cache are kept. Success: the memo entry and the `(location, address)` cache entry become the body, the body is returned, and no other cache entry changes |
| Engine.MemoHitMakesNoCall | app.py:121-122 | a memoised address is answered from the memo with no call and no change of state |
| Engine.LeafSendsLocation | app.py:124-126 | an unmemoised leaf is contacted once, with exactly the location, and answers with its contribution |
| Engine.NonLeafSendsMergedData | app.py:127-131 | a node with dependencies is contacted last, after its dependency data is gathered, with that data in which latitude and longitude are overwritten by the location, and no other key changed |
| Engine.TwoLeafDependencies | app.py:118-151 | a service with leaf dependencies C and D makes three calls: C and D with the location, then the service with their merged answers plus the location |
| Engine.TwoLeavesMerged | app.py:134-151 | the dependency data of two unmemoised leaves calls each once, in order, and merges their answers in order, the later one winning |
| Engine.LeafGrandchildrenSilent | app.py:136-140 | a dependency whose children are all leaves contributes nothing and contacts nobody |
| Engine.DepDataContactsOnlyLeaves | app.py:134-151 | gathering dependency data only appends calls to leaves below the service, only memoises those, and only removes registry entries |
| Engine.ResolveExtends | app.py:118-151 | resolving a service contacts only the service itself and leaves below it |
| Engine.ResolveAgeFromOwnCall | app.py:118-131 | a memoised service makes no call and keeps its max-age; otherwise the last call logged is to the service itself with `RootPayload`, and its new max-age is what that reply teaches |
| Engine.ResolveKeepsQueryInv | app.py:118-167 | resolving a tree without self-dependency never calls an address that already answered successfully in the query, and the memo is exactly what the query's calls taught |
| Engine.OnceAfterSuccess | app.py:144-146 | in a call sequence that never repeats a success, a service that answered successfully is not called again |
| Engine.QueryContactsOnceAfterSuccess | app.py:91-167 | starting from an empty memo and without self-dependencies, no service is contacted again in the query after it answered successfully |
| Engine.SelfDependencyContactedTwice | app.py:118-131 | a service whose only dependency has its own address is contacted twice in one query, the second time after a success |
| Engine.CacheHitMakesNoCall | app.py:108-109 | on a cache hit the element is the metadata updated by the cached document, and the state is unchanged (no call) |
| Engine.LeafAppContribution | app.py:97-113 | on a miss, a top-level leaf's element is its metadata updated by the body on success, and the metadata alone on failure; if unreachable it is dropped from the registry |
| Engine.AggregateAt | app.py:95-115 | element `i` of the reply is the step for service `i` in the state the services before it left |
| Engine.AggregateShape | app.py:95-115 | one element per service, in order; element `i` is service `i`'s metadata updated by its cached or resolved document, so its `_metadata` is the service's own unless that document overwrote the key |
| Engine.AgesAfterAt | app.py:95-115 | the max-age of top-level service `i` after the loop is the one its own iteration left |
| Engine.LearnedAgesKept | app.py:175-177 | a query never changes the learned max-age of a top-level service |
| Engine.AggregateShrinksRegistry | app.py:95-115 | a query only appends to the log and only removes services from the registry |
| Engine.CachedAnswerReused | app.py:174-199 | an unlearned leaf answering a first query successfully gets its metadata updated by the body and learns the offered max-age; a second query at the same location within that max-age, memo cleared, gets the same element from the cache and changes nothing |
| Mix.RegistryInsert | app.py:39 | filing a service with a new address and its own fresh nodes keeps the registry well-formed |
| Mix.EnumeratedNoSelfDependency | app.py:96-97 | services of a registry without self-dependencies give views without them |
| Mix.EnumeratedQuery | app.py:91-115 | a query over an enumeration of the registry leaves a well-formed registry and, without self-dependencies, contacts no service again after it answered successfully |
| Mix.ConvertDependenciesToObjects | app.py:44-53 | the new objects' trees are the conversion of the descriptors, and all their nodes are fresh with max-age 0 |
| Mix.NewService | app.py:46-51 | the object for one descriptor: addressed `ip:port`, its own descriptors converted below it, fresh, max-age 0 |
| Mix.Mix.constructor | app.py:10-12 | empty registry, memo and cache |
| Mix.Mix.AddMicroservice | app.py:21-41 | a missing key gives 400 naming the first missing key, with the registry unchanged. Otherwise 200: a new address is added with a fresh service whose tree is the converted payload and whose max-age is 0, and an address already present keeps its original object |
| Mix.Mix.Register | app.py:39 | `set.add`: a new address is filed with the service and every other entry kept; an address already present leaves the registry unchanged |
| Mix.Mix.RemoveMicroservice | app.py:56-72 | without `ip` or `port`: 400 and no change. Otherwise the address is removed and 404 is returned exactly when it was not registered, 200 otherwise |
| Mix.Mix.CacheHit | app.py:186-199 | the early-exit tests agree with the reference freshness rule `TtlCache.Fresh` |
| Mix.Mix.AddEntryToCache | app.py:174-183 | the max-age is learned only when it was 0, and the cache is the store of the body at `(location, address)` |
| Mix.Mix.MakeImRequest | app.py:154-167 | the returned document and new state are those of `Engine.Request`, and the service's max-age is what `Engine.Learn` gives for the reply |
| Mix.Mix.ProcessRequest | app.py:118-131 | the returned document and new state are those of `Engine.Resolve` on the service's tree; the service's max-age is `Engine.ResolveAge`; a learned max-age anywhere in its tree is kept |
| Mix.Mix.GetDependencyData | app.py:134-151 | both loops together compute `Engine.DepData` on the service's tree; only nodes below the service may change, and learned max-ages are kept |
| Mix.Mix.ServiceEntry | app.py:97-113 | one reply element and its new state are those of `Engine.AggStep` for the service's view at the start of the step; the service's max-age is `Engine.StepAge`; learned max-ages in its tree are kept |
| Mix.Mix.AnswerTwice | app.py:97-113 | two passes of the loop body for an unlearned leaf, the memo cleared between them, the second within the learned max-age: one call in all, the same element both times, and the offered max-age learned |
| Mix.Mix.AnswerOne | app.py:97-113 | one pass of the loop extends the reply by the step for the chosen service, records the max-age that step leaves, and keeps the max-ages of the services still pending |
| Mix.Mix.AnswerEach | app.py:91-115 | after clearing the memo, the loop answers every service of the registry copy exactly once, in the order `views`; the reply with the final state is `Engine.Aggregate` over that order, and each top-level max-age is `Engine.AgesAfter` |
| Mix.Mix.MixAt | app.py:91-115 | at a valid location: the registry stays well-formed, the reply and final state are `Engine.Aggregate` from an empty memo, each top-level max-age is `Engine.AgesAfter`, and without self-dependencies no service is contacted again after it answered successfully |
| Mix.Mix.PostMix | app.py:75-115 | `abs(lat) > 90` gives "Invalid latitude" before longitude is examined, and `abs(lon) > 180` gives "Invalid longitude"; in both cases no field and no service object changes. Otherwise status 200, one element per service of the registry at the start, as `Engine.Aggregate` computes from an empty memo, each top-level max-age as `Engine.AgesAfter` gives, and, without self-dependencies, no service contacted again after a success |

## Left out

- Flask routing, `request.json` and `request.form` access, `jsonify`, and the `/` route with its template (app.py:16-18). Handlers take already-parsed inputs and return a body and a status.
- `requests.get` and real networking (app.py:156): replaced by the `Network` function. Which exceptions count as unreachable is not modelled beyond the `Unreachable` outcome.
- `datetime.now()` (app.py:181-183, app.py:191): replaced by an integer clock `now`, read once per query. Every store and every freshness check in one query sees the same `now`, whereas the code reads the clock again at each store (app.py:181, app.py:183) and at each check (app.py:191). Elapsed time is `now - stored` rather than a float number of seconds.
- Float parsing of the `"lat,lon"` form field (app.py:80-83): latitude and longitude arrive as reals.
- Float parsing of the header value (app.py:171):
  - `TtlCache.ParseCacheHeader` models the string step: the second `=`-separated field.
  - The number that step yields arrives as `Response.maxAge`.
- Crash paths from Python exceptions rather than designed behaviour:
  - a missing `dependencies` key (app.py:30);
  - a missing `Cache-Control` header (app.py:177);
  - on a successful reply to a service whose max-age is still 0, a `Cache-Control` value without `=` (IndexError at app.py:171) or whose second field is not a number (ValueError at app.py:171), either of which ends the query at app.py:177. In the model `Response.maxAge` is always a number, and `TtlCache.ParseCacheHeader`, which models the IndexError, is not called by the engine;
  - a form field without a comma (app.py:81-83);
  - a nested dependency descriptor without `ip`, `port` or `dependencies` (app.py:48-51);
  - an `ip` or `port` that is not a string (app.py:32, app.py:65): both are strings in the model;
  - a request or reply body that is not a JSON object (app.py:166-167, app.py:181-183, and the `update` calls at app.py:109, app.py:111, app.py:140, app.py:145 and app.py:149): every body is a `Doc` in the model. On a 200 reply that is not JSON, the code learns the max-age (app.py:177) before it crashes (app.py:181); the model has no such reply.
- Non-string metadata: `add_microservice` accepts any JSON value for `name`, `creator` and `tile` (app.py:26, app.py:34-36), and `POST_MIX` echoes that value in `_metadata` (app.py:99-105). In the model these three fields are strings, so the `_metadata` that `Engine.Metadata` builds for a registered service holds only `Str` values.
- `print` logging (app.py:38, app.py:58, app.py:158, app.py:162, app.py:188-198).
- Concurrency: the code takes no locks and the model is sequential.
- Services.Microservice.Hash: Python's per-process salted string hash is the parameter `strHash`. Only its dependence on the address is modelled.
- Services.Microservice.Repr: the contract states only the address suffix, not the exact text of the `None` fields.
- Mix.Mix.PostMix: the max-age of every top-level service after the query is stated (`Engine.AgesAfter`). The max-ages of dependency nodes are not stated for the whole query. For each call, `ServiceEntry`, `ProcessRequest` and `GetDependencyData` state only that a learned one is kept.
- Mix.Mix.AnswerEach: the order in which the registry copy is visited is chosen nondeterministically, as Python's set order is unspecified. No ordering of results is claimed.
