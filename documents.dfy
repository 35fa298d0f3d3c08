/** JSON documents exchanged between the middleware and the information
    microservices, the location a query names, and the stock Option type. */
module Documents {

  datatype Option<+T> = None | Some(value: T)

  /** A JSON value. Numbers are modelled as reals (Python floats). */
  datatype Json =
    | Null
    | Bool(b: bool)
    | Num(n: real)
    | Str(s: string)
    | Arr(items: seq<Json>)
    | Obj(fields: map<string, Json>)

  /** A JSON object, as a Python dict. `a + b` is `a.update(b)`: on a shared
      key the value of `b` wins. */
  type Doc = map<string, Json>

  /** The `(lat, lon)` pair of a query. */
  datatype Location = Location(lat: real, lon: real)

  /** The payload `{'latitude': lat, 'longitude': lon}`. */
  function LatLonDoc(loc: Location): (d: Doc)
    ensures d.Keys == {"latitude", "longitude"}
    ensures d["latitude"] == Num(loc.lat) && d["longitude"] == Num(loc.lon)
  {
    map["latitude" := Num(loc.lat), "longitude" := Num(loc.lon)]
  }

  /** A Python `None` or string, as it appears inside a JSON document. */
  function OptionalText(o: Option<string>): Json
  {
    match o
    case None => Null
    case Some(s) => Str(s)
  }
}
