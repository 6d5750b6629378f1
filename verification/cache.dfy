/** `DistanceCache` and `cached_distance` of utils/cache.py: an
    insertion-ordered dict from a symmetric pair key to a distance, bounded
    by `maxsize` with first-in first-out eviction. The `.6f` formatting of a
    coordinate pair is an argument; the file persistence is not modelled. */
module Cache {
  import opened Wrappers
  import opened Seqs
  import opened Types
  import opened Distance

  /** `f"{lat:.6f},{lon:.6f}"`. */
  type Format = Point -> string

  /** The dict: its keys in insertion order and its entries. */
  datatype DistanceCache = DistanceCache(maxsize: int, keys: seq<string>, values: map<string, real>)

  /** The dict's keys are its entries' keys, each once. */
  predicate Valid(c: DistanceCache)
  {
    Distinct(c.keys) && (forall k :: k in c.values ==> k in c.keys) && (forall k :: k in c.keys ==> k in c.values)
  }

  /** `DistanceCache(maxsize)` without a persistence file. */
  function NewCache(maxsize: int): (c: DistanceCache)
    ensures Valid(c) && |c.keys| == 0 && c.maxsize == maxsize
  {
    DistanceCache(maxsize, [], map[])
  }

  /** Python's tuple order on `(lat, lon)`. */
  predicate Below(a: Point, b: Point)
  {
    a.lat < b.lat || (a.lat == b.lat && a.lon <= b.lon)
  }

  /** `_cache_key`: the two points in sorted order, each formatted. */
  function Key(fmt: Format, a: Point, b: Point): string
  {
    var (lo, hi) := if Below(a, b) then (a, b) else (b, a);
    fmt(lo) + "|" + fmt(hi)
  }

  /** The key does not depend on the order of the two points. */
  lemma KeySymmetric(fmt: Format, a: Point, b: Point)
    ensures Key(fmt, a, b) == Key(fmt, b, a)
  {
    if Below(a, b) && Below(b, a) {
      assert a == b;
    }
  }

  /** `get`. */
  function Get(c: DistanceCache, fmt: Format, a: Point, b: Point): (r: Option<real>)
    ensures r.Some? <==> Key(fmt, a, b) in c.values
    ensures r.Some? ==> r.value == c.values[Key(fmt, a, b)]
  {
    var k := Key(fmt, a, b);
    if k in c.values then Some(c.values[k]) else None
  }

  /** Whether `set` with key `k` evicts: the dict is full and `k` is new. */
  predicate Evicts(c: DistanceCache, k: string)
  {
    |c.keys| >= c.maxsize && k !in c.values
  }

  /** `set`. Eviction needs a first key: with a non-positive `maxsize` and an
      empty dict, `next(iter(...))` raises `StopIteration`. */
  function Set(c: DistanceCache, fmt: Format, a: Point, b: Point, d: real): (r: Result<DistanceCache>)
    requires Valid(c)
    ensures r.Failure? <==> Evicts(c, Key(fmt, a, b)) && |c.keys| == 0
    ensures r.Failure? ==> r.error == StopIteration
    ensures r.Success? ==> Valid(r.value) && r.value.maxsize == c.maxsize
    ensures r.Success? ==> Key(fmt, a, b) in r.value.values && r.value.values[Key(fmt, a, b)] == d
  {
    var k := Key(fmt, a, b);
    if Evicts(c, k) then
      if |c.keys| == 0 then Failure(StopIteration)
      else
        var first := c.keys[0];
        DistinctUncons(c.keys);
        Success(DistanceCache(c.maxsize, c.keys[1..] + [k], (c.values - {first})[k := d]))
    else if k in c.values then
      Success(c.(values := c.values[k := d]))
    else
      Success(DistanceCache(c.maxsize, c.keys + [k], c.values[k := d]))
  }

  /** After `set(a, b, d)` both `get(a, b)` and `get(b, a)` read `d`. */
  lemma SetThenGet(c: DistanceCache, fmt: Format, a: Point, b: Point, d: real, c': DistanceCache)
    requires Valid(c) && Set(c, fmt, a, b, d) == Success(c')
    ensures Get(c', fmt, a, b) == Some(d) && Get(c', fmt, b, a) == Some(d)
  {
    KeySymmetric(fmt, a, b);
  }

  /** What `set` does to the order of the keys: an overwrite keeps the
      key's place and evicts nothing; a new key goes last, pushing out the
      oldest key when the dict is full; every other entry keeps its value. */
  lemma SetOrder(c: DistanceCache, fmt: Format, a: Point, b: Point, d: real, c': DistanceCache)
    requires Valid(c) && Set(c, fmt, a, b, d) == Success(c')
    ensures Key(fmt, a, b) in c.values ==> c'.keys == c.keys
    ensures Key(fmt, a, b) !in c.values && !Evicts(c, Key(fmt, a, b)) ==> c'.keys == c.keys + [Key(fmt, a, b)]
    ensures Evicts(c, Key(fmt, a, b)) ==> c'.keys == c.keys[1..] + [Key(fmt, a, b)]
    ensures forall k :: k in c'.values && k != Key(fmt, a, b) ==> k in c.values && c'.values[k] == c.values[k]
    ensures forall k :: k in c.values && k != Key(fmt, a, b) && !(Evicts(c, Key(fmt, a, b)) && k == c.keys[0]) ==>
              k in c'.values
  {
  }

  /** A `set` never grows a dict that is within its bound past the bound. */
  lemma SetBounded(c: DistanceCache, fmt: Format, a: Point, b: Point, d: real, c': DistanceCache)
    requires Valid(c) && |c.keys| <= c.maxsize && Set(c, fmt, a, b, d) == Success(c')
    ensures |c'.keys| <= c'.maxsize
  {
    SetOrder(c, fmt, a, b, d, c');
  }

  /** `clear`. */
  function Clear(c: DistanceCache): (r: DistanceCache)
    ensures Valid(r) && r.maxsize == c.maxsize
    ensures forall fmt: Format, a: Point, b: Point :: Get(r, fmt, a, b).None?
  {
    NewCache(c.maxsize)
  }

  /** The `cached_distance` wrapper: a cached value, zero included, is
      returned as it is; otherwise the distance is computed and stored. */
  function CachedDistance(c: DistanceCache, fmt: Format, f: Metric, a: Point, b: Point): (r: Result<(real, DistanceCache)>)
    requires Valid(c)
    ensures Get(c, fmt, a, b).Some? ==> r == Success((Get(c, fmt, a, b).value, c))
    ensures Get(c, fmt, a, b).None? && r.Success? ==> r.value.0 == f(a, b)
    ensures r.Success? ==> Valid(r.value.1) && Get(r.value.1, fmt, a, b) == Some(r.value.0)
  {
    match Get(c, fmt, a, b)
    case Some(v) => Success((v, c))
    case None =>
      var d := f(a, b);
      var c' :- Set(c, fmt, a, b, d);
      Success((d, c'))
  }

  /** A second call with the same points, in either order, reads the cache
      and leaves it as it is. */
  lemma CachedTwice(c: DistanceCache, fmt: Format, f: Metric, a: Point, b: Point, d: real, c': DistanceCache)
    requires Valid(c) && CachedDistance(c, fmt, f, a, b) == Success((d, c'))
    ensures CachedDistance(c', fmt, f, a, b) == Success((d, c'))
    ensures CachedDistance(c', fmt, f, b, a) == Success((d, c'))
  {
    KeySymmetric(fmt, a, b);
  }
}
