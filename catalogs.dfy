/** Seismic event catalogs and the two filters the driver applies to every
    simulated catalog: a cut-off on origin time, then a region mask. */
module Catalogs {

  /** One event: origin time as an epoch value, epicentre, magnitude. */
  datatype Event = Event(originTime: int, longitude: real, latitude: real, magnitude: real)

  /** An ordered sequence of events. */
  datatype Catalog = Catalog(events: seq<Event>)

  /** The evaluation region, seen only through its membership test on an
      epicentre (longitude, latitude). */
  type Region = (real, real) -> bool

  /** A selection criterion on events: the time filter, the spatial filter,
      and both of them at once. */
  datatype Criterion =
    | OriginBefore(endEpoch: int)
    | InRegion(region: Region)
    | Both(first: Criterion, second: Criterion)

  predicate Holds(k: Criterion, e: Event) {
    match k
    case OriginBefore(endEpoch) => e.originTime < endEpoch
    case InRegion(region) => region(e.longitude, e.latitude)
    case Both(first, second) => Holds(first, e) && Holds(second, e)
  }

  /** The events of `s` that satisfy `k`, in their original order. */
  function Keep(s: seq<Event>, k: Criterion): (r: seq<Event>)
    ensures |r| <= |s|
    ensures forall e :: e in r <==> e in s && Holds(k, e)
    decreases |s|
  {
    if s == [] then [] else (if Holds(k, s[0]) then [s[0]] else []) + Keep(s[1..], k)
  }

  /** `cat.filter('origin_time < end_epoch')`. */
  function FilterTime(c: Catalog, endEpoch: int): Catalog {
    Catalog(Keep(c.events, OriginBefore(endEpoch)))
  }

  /** `cat.filter_spatial(region)`. */
  function FilterSpatial(c: Catalog, region: Region): Catalog {
    Catalog(Keep(c.events, InRegion(region)))
  }

  /** What an accumulator may be given: every event is before the cut-off and inside the region. */
  ghost predicate IsFiltered(c: Catalog, endEpoch: int, region: Region) {
    forall e :: e in c.events ==> e.originTime < endEpoch && region(e.longitude, e.latitude)
  }

  /** The per-catalog filter of the driver: time cut-off first, then the region. */
  function FilterCatalog(c: Catalog, endEpoch: int, region: Region): Catalog {
    FilterSpatial(FilterTime(c, endEpoch), region)
  }

  /** The filtered catalog passes both filters, and loses no event that passes them. */
  lemma FilterCatalogSound(c: Catalog, endEpoch: int, region: Region)
    ensures IsFiltered(FilterCatalog(c, endEpoch, region), endEpoch, region)
    ensures forall e :: e in c.events && e.originTime < endEpoch && region(e.longitude, e.latitude)
                        ==> e in FilterCatalog(c, endEpoch, region).events
    ensures |FilterCatalog(c, endEpoch, region).events| <= |c.events|
  {
  }

  /** Keeping by one criterion and then by another is keeping by both at once. */
  lemma {:induction false} KeepKeep(s: seq<Event>, k1: Criterion, k2: Criterion)
    ensures Keep(Keep(s, k1), k2) == Keep(s, Both(k1, k2))
    decreases |s|
  {
    if s != [] {
      KeepKeep(s[1..], k1, k2);
      KeepAppend(if Holds(k1, s[0]) then [s[0]] else [], Keep(s[1..], k1), k2);
      assert Keep([s[0]], k2) == (if Holds(k2, s[0]) then [s[0]] else []) + Keep([], k2);
    }
  }

  /** Keeping distributes over concatenation, so it preserves the order of events. */
  lemma {:induction false} KeepAppend(a: seq<Event>, b: seq<Event>, k: Criterion)
    ensures Keep(a + b, k) == Keep(a, k) + Keep(b, k)
    decreases |a|
  {
    if a != [] {
      assert (a + b)[1..] == a[1..] + b;
      KeepAppend(a[1..], b, k);
    } else {
      assert a + b == b;
    }
  }

  /** Keeping removes nothing from a sequence all of whose events pass. */
  lemma {:induction false} KeepAll(s: seq<Event>, k: Criterion)
    requires forall e :: e in s ==> Holds(k, e)
    ensures Keep(s, k) == s
    decreases |s|
  {
    if s != [] {
      assert s[0] in s && forall e :: e in s[1..] ==> e in s;
      KeepAll(s[1..], k);
      assert Keep(s, k) == [s[0]] + s[1..];
    }
  }

  /** The filtered catalog holds exactly the events that are before the cut-off and
      inside the region, in the order the simulated catalog lists them. */
  lemma FilterCatalogKeepsOrder(c: Catalog, endEpoch: int, region: Region)
    ensures FilterCatalog(c, endEpoch, region).events
         == Keep(c.events, Both(OriginBefore(endEpoch), InRegion(region)))
  {
    KeepKeep(c.events, OriginBefore(endEpoch), InRegion(region));
  }

  /** Filtering an already filtered catalog changes nothing. */
  lemma FilterIdempotent(c: Catalog, endEpoch: int, region: Region)
    ensures FilterCatalog(FilterCatalog(c, endEpoch, region), endEpoch, region)
         == FilterCatalog(c, endEpoch, region)
  {
    var f := FilterCatalog(c, endEpoch, region);
    KeepAll(f.events, OriginBefore(endEpoch));
    KeepAll(f.events, InRegion(region));
  }
}
