/** The registration payload and what registration derives from it: the
    check of the required keys and the dependency tree with `ip:port`
    addresses. */
module Registration {
  import opened DependencyTree

  /** One nested dependency descriptor: `{ip, port, dependencies}`. */
  datatype DepSpec = DepSpec(ip: string, port: string, dependencies: seq<DepSpec>)

  /** A request body: its string-valued keys and, for registration, the
      nested `dependencies` list. */
  datatype Payload = Payload(fields: map<string, string>, dependencies: seq<DepSpec>)

  /** The keys registration requires, in the order it checks them. */
  const RequiredKeys: seq<string> := ["port", "ip", "name", "creator", "tile"]

  /** The address of a service: `ip + ':' + port`. */
  function Address(ip: string, port: string): string
  {
    ip + ":" + port
  }

  /** The position of the first key of `keys` absent from `fields`, or
      `|keys|` when all are present. */
  function MissingIndex(keys: seq<string>, fields: map<string, string>): (r: nat)
    ensures r <= |keys|
    ensures forall j :: 0 <= j < r ==> keys[j] in fields
    ensures r < |keys| ==> keys[r] !in fields
  {
    if keys == [] then 0
    else if keys[0] !in fields then 0
    else 1 + MissingIndex(keys[1..], fields)
  }

  /** The check of `add_microservice`: walk the required keys in order and
      stop at the first one absent from the payload. */
  method FirstMissing(keys: seq<string>, fields: map<string, string>) returns (k: nat)
    ensures k == MissingIndex(keys, fields)
  {
    k := 0;
    while k < |keys|
      invariant k <= |keys|
      invariant forall j :: 0 <= j < k ==> keys[j] in fields
    {
      if keys[k] !in fields {
        return;
      }
      k := k + 1;
    }
  }

  /** All five required keys are present. */
  predicate Complete(fields: map<string, string>)
  {
    "port" in fields && "ip" in fields && "name" in fields && "creator" in fields && "tile" in fields
  }

  /** The key check finds no missing key exactly when the payload is
      complete; otherwise it names the first missing key in the order
      port, ip, name, creator, tile. */
  lemma CompleteIffNoneMissing(fields: map<string, string>)
    ensures MissingIndex(RequiredKeys, fields) == |RequiredKeys| <==> Complete(fields)
    ensures "port" !in fields ==> MissingIndex(RequiredKeys, fields) == 0
    ensures "port" in fields && "ip" !in fields ==> MissingIndex(RequiredKeys, fields) == 1
  {
    var k := MissingIndex(RequiredKeys, fields);
    assert RequiredKeys[0] == "port" && RequiredKeys[1] == "ip" && RequiredKeys[2] == "name";
    assert RequiredKeys[3] == "creator" && RequiredKeys[4] == "tile";
  }

  /** The message of the 400 reply for a missing key. */
  function MissingKeyMessage(key: string): string
  {
    "Required key " + key + " not present in payload JSON."
  }

  /** The dependency trees that registration builds: one node per
      descriptor, in order, addressed `ip:port`, with its own descriptors
      converted below it. */
  function Convert(specs: seq<DepSpec>): (ts: seq<Tree>)
    ensures |ts| == |specs|
  {
    if specs == [] then []
    else
      var x := specs[|specs| - 1];
      Convert(specs[..|specs| - 1]) + [Node(Address(x.ip, x.port), Convert(x.dependencies))]
  }

  /** Descriptor `i` becomes node `i`: addressed `ip:port`, with its own
      descriptors converted below it. */
  lemma {:induction false} ConvertAt(specs: seq<DepSpec>, i: nat)
    requires i < |specs|
    ensures Convert(specs)[i] == Node(Address(specs[i].ip, specs[i].port), Convert(specs[i].dependencies))
  {
    if i < |specs| - 1 {
      ConvertAt(specs[..|specs| - 1], i);
    }
  }
}
