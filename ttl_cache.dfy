/** The per-location, per-service response cache, its freshness rule, and
    the parsing of the `Cache-Control` header. */
module TtlCache {
  import opened Documents

  /** A cached response and the clock reading at which it was stored. */
  datatype Entry = Entry(doc: Doc, time: int)

  /** `cache[(lat, lon)][address] == (document, timestamp)`. */
  type Cache = map<Location, map<string, Entry>>

  function Lookup(c: Cache, loc: Location, addr: string): Option<Entry>
  {
    if loc in c && addr in c[loc] then Some(c[loc][addr]) else None
  }

  /** Reference definition of a cache hit: a learned max-age, an entry for
      exactly this (location, address) key, and an entry younger than the
      max-age. */
  predicate Fresh(c: Cache, loc: Location, addr: string, maxAge: real, now: int)
  {
    && maxAge != 0.0
    && Lookup(c, loc, addr).Some?
    && ((now - Lookup(c, loc, addr).value.time) as real) < maxAge
  }

  /** The table update of `add_entry_to_cache`: a new inner table when the
      location is new, an overwrite of one inner key otherwise. */
  function Store(c: Cache, loc: Location, addr: string, doc: Doc, now: int): Cache
  {
    if loc !in c then c[loc := map[addr := Entry(doc, now)]]
    else c[loc := c[loc][addr := Entry(doc, now)]]
  }

  /** Storing overwrites exactly the `(loc, addr)` entry and leaves every
      other entry as it was. */
  lemma StoreOverwritesOneEntry(c: Cache, loc: Location, addr: string, doc: Doc, now: int, loc': Location, addr': string)
    ensures Lookup(Store(c, loc, addr, doc, now), loc', addr') ==
            if loc' == loc && addr' == addr then Some(Entry(doc, now)) else Lookup(c, loc', addr')
  {
  }

  /** A service whose max-age was never learned is never served from the
      cache, whatever the table holds. */
  lemma UnlearnedNeverFresh(c: Cache, loc: Location, addr: string, now: int)
    ensures !Fresh(c, loc, addr, 0.0, now)
  {
  }

  /** Right after a store, the entry is fresh exactly while less than
      `maxAge` has elapsed since it was stored. */
  lemma StoredThenFresh(c: Cache, loc: Location, addr: string, doc: Doc, stored: int, maxAge: real, now: int)
    ensures Fresh(Store(c, loc, addr, doc, stored), loc, addr, maxAge, now) <==>
            maxAge != 0.0 && ((now - stored) as real) < maxAge
    ensures Lookup(Store(c, loc, addr, doc, stored), loc, addr) == Some(Entry(doc, stored))
  {
    StoreOverwritesOneEntry(c, loc, addr, doc, stored, loc, addr);
  }

  /** Python's `s.split(sep)`: the pieces of `s` between occurrences of `sep`. */
  function Split(s: string, sep: char): (parts: seq<string>)
    ensures |parts| >= 1
    ensures forall i :: 0 <= i < |parts| ==> sep !in parts[i]
  {
    if s == [] then [[]]
    else if s[0] == sep then [[]] + Split(s[1..], sep)
    else var rest := Split(s[1..], sep); [[s[0]] + rest[0]] + rest[1..]
  }

  /** Python's `sep.join(parts)`. */
  function Join(parts: seq<string>, sep: char): string
  {
    if parts == [] then [] else if |parts| == 1 then parts[0] else parts[0] + [sep] + Join(parts[1..], sep)
  }

  /** Splitting loses nothing: joining the pieces again gives the input. */
  lemma {:induction false} SplitJoin(s: string, sep: char)
    ensures Join(Split(s, sep), sep) == s
  {
    if s == [] {
    } else if s[0] == sep {
      SplitJoin(s[1..], sep);
      var rest := Split(s[1..], sep);
      assert Split(s, sep) == [[]] + rest;
      assert [sep] + s[1..] == s;
    } else {
      SplitJoin(s[1..], sep);
      var rest := Split(s[1..], sep);
      assert Split(s, sep) == [[s[0]] + rest[0]] + rest[1..];
      if |rest| == 1 {
        assert [s[0]] + s[1..] == s;
      } else {
        assert Join(rest, sep) == rest[0] + [sep] + Join(rest[1..], sep);
        assert [s[0]] + (rest[0] + [sep] + Join(rest[1..], sep)) == ([s[0]] + rest[0]) + [sep] + Join(rest[1..], sep);
        assert [s[0]] + s[1..] == s;
      }
    }
  }

  /** `parse_cache_header`: the text after the first `=` and before any
      second one. `None` stands for the IndexError a header without `=`
      raises. The conversion of that text to a float is not modelled. */
  function ParseCacheHeader(header: string): Option<string>
  {
    var parts := Split(header, '=');
    if |parts| >= 2 then Some(parts[1]) else None
  }

  /** A header of the form `<directive>=<value>` yields `<value>`, and a
      header without `=` yields nothing. */
  lemma {:induction false} ParseDirective(directive: string, value: string)
    requires '=' !in directive && '=' !in value
    ensures ParseCacheHeader(directive + "=" + value) == Some(value)
    ensures ParseCacheHeader(directive) == None
  {
    SplitNoSep(value, '=');
    SplitAfterPrefix(directive, "=" + value, '=');
    assert ("=" + value)[1..] == value;
    SplitNoSep(directive, '=');
    assert directive + "=" + value == directive + ("=" + value);
  }

  lemma {:induction false} SplitNoSep(s: string, sep: char)
    requires sep !in s
    ensures Split(s, sep) == [s]
  {
    if s != [] {
      SplitNoSep(s[1..], sep);
      assert [s[0]] + s[1..] == s;
    }
  }

  /** Splitting `p + t`, where `p` has no separator and `t` starts with one,
      puts `p` first and then the pieces of what follows the separator. */
  lemma {:induction false} SplitAfterPrefix(p: string, t: string, sep: char)
    requires sep !in p && |t| > 0 && t[0] == sep
    ensures Split(p + t, sep) == [p] + Split(t[1..], sep)
  {
    if p == [] {
      assert p + t == t;
    } else {
      SplitAfterPrefix(p[1..], t, sep);
      assert (p + t)[1..] == p[1..] + t;
      assert [p[0]] + p[1..] == p;
    }
  }
}
