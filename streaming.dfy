/** The driver: one pass over the simulated catalogs that feeds every
    accumulator, the step that shares accumulated data between tests, and the
    finalize pass that collects one result per test. */
module Streaming {
  import opened Wrappers
  import opened Dicts
  import opened Catalogs
  import opened Accumulators

  /** One call the driver makes on a named accumulator. */
  datatype Call = Process(name: string, catalog: Catalog) | Evaluate(name: string)

  function Abs(n: int): nat {
    if n < 0 then -n else n
  }

  function Min(a: nat, b: nat): nat {
    if a <= b then a else b
  }

  /** Python's `a % b`: the remainder has the sign of the divisor, whereas
      Dafny's `%` is never negative. */
  function PyMod(a: int, b: int): (r: int)
    requires b != 0
    ensures b > 0 ==> 0 <= r < b
    ensures b < 0 ==> b < r <= 0
    ensures r == 0 <==> a % Abs(b) == 0
    ensures (a - r) % Abs(b) == 0
  {
    var m := a % Abs(b);
    MultipleMod(a / Abs(b), Abs(b));
    MultipleMod(a / Abs(b) + 1, Abs(b));
    if b < 0 && m != 0 then
      assert a - (m + b) == (a / Abs(b) + 1) * Abs(b);
      m + b
    else
      assert a - m == (a / Abs(b)) * Abs(b);
      m
  }

  /** A multiple of `n` leaves no remainder. */
  lemma MultipleMod(q: int, n: int)
    requires n > 0
    ensures (q * n) % n == 0
  {
    // `d * n` is the remainder, so `0 <= d * n < n`, which leaves only `d == 0`.
    var d := q - (q * n) / n;
    assert d * n == q * n - ((q * n) / n) * n;
    if d >= 1 {
      assert false;
    } else if d <= -1 {
      assert d * n <= -n;
    }
  }

  /** For `1 <= k <= |n|`, `k % n == 0` holds only at `k == |n|`; so the break
      test `(i+1) % n_cat == 0` first fires after `|n_cat|` catalogs. */
  lemma BreakOnlyAtCap(k: int, n: int)
    requires n != 0 && 1 <= k <= Abs(n)
    ensures PyMod(k, n) == 0 <==> k == Abs(n)
  {
    if k < Abs(n) {
      assert k % Abs(n) == k;
    } else {
      assert k % Abs(n) == 0;
    }
  }

  /** The number of catalogs the pass pulls from a stream of `available` ones:
      it stops after `|n_cat|` of them; with `n_cat == 0` the modulo raises
      after the first one. */
  function Pulled(available: nat, nCat: int): nat {
    if nCat == 0 then Min(1, available) else Min(Abs(nCat), available)
  }

  /** Every catalog of `cats`, filtered. */
  function FilterAll(cats: seq<Catalog>, endEpoch: int, region: Region): seq<Catalog> {
    seq(|cats|, i requires 0 <= i < |cats| => FilterCatalog(cats[i], endEpoch, region))
  }

  /** The `data` a test of class `kind` builds from the catalogs `cats`. */
  function Summaries(kind: TestKind, cats: seq<Catalog>): seq<Sample> {
    seq(|cats|, i requires 0 <= i < |cats| => Sample(kind, cats[i]))
  }

  /** The calls of one catalog step: every name, in registry order, given `c`. */
  function StepCalls(names: seq<string>, c: Catalog): seq<Call> {
    seq(|names|, j requires 0 <= j < |names| => Process(names[j], c))
  }

  /** The calls of the whole streaming pass over `cats`, catalog by catalog. */
  function FanOut(names: seq<string>, cats: seq<Catalog>): seq<Call>
    decreases |cats|
  {
    if cats == [] then [] else FanOut(names, cats[..|cats| - 1]) + StepCalls(names, cats[|cats| - 1])
  }

  /** The finalize calls: every name, in registry order, evaluated. */
  function EvaluateCalls(names: seq<string>): seq<Call> {
    seq(|names|, j requires 0 <= j < |names| => Evaluate(names[j]))
  }

  /** The catalogs that accumulator `name` is given in `calls`, in order. */
  function Received(name: string, calls: seq<Call>): seq<Catalog>
    decreases |calls|
  {
    if calls == [] then []
    else (if calls[0].Process? && calls[0].name == name then [calls[0].catalog] else [])
         + Received(name, calls[1..])
  }

  lemma {:induction false} ReceivedAppend(name: string, a: seq<Call>, b: seq<Call>)
    ensures Received(name, a + b) == Received(name, a) + Received(name, b)
    decreases |a|
  {
    if a == [] {
      assert a + b == b;
    } else {
      assert (a + b)[1..] == a[1..] + b;
      ReceivedAppend(name, a[1..], b);
    }
  }

  /** In one catalog step, a registered accumulator is given the catalog exactly once. */
  lemma {:induction false} StepDelivers(names: seq<string>, c: Catalog, name: string)
    requires Distinct(names)
    ensures Received(name, StepCalls(names, c)) == if name in names then [c] else []
    decreases |names|
  {
    if names != [] {
      var calls := StepCalls(names, c);
      assert calls[1..] == StepCalls(names[1..], c);
      assert name in names[1..] ==> name != names[0];
      assert name in names ==> name == names[0] || name in names[1..];
      StepDelivers(names[1..], c, name);
    }
  }

  /** Over the whole pass, each registered accumulator is given every catalog
      exactly once, in stream order; an unregistered name is given nothing. */
  lemma {:induction false} FanOutDelivers(names: seq<string>, cats: seq<Catalog>, name: string)
    requires Distinct(names)
    ensures Received(name, FanOut(names, cats)) == if name in names then cats else []
    decreases |cats|
  {
    if cats != [] {
      var init, last := cats[..|cats| - 1], cats[|cats| - 1];
      var before, step := FanOut(names, init), StepCalls(names, last);
      FanOutDelivers(names, init, name);
      ReceivedAppend(name, before, step);
      StepDelivers(names, last, name);
      calc {
        Received(name, FanOut(names, cats));
        Received(name, before + step);
        Received(name, before) + Received(name, step);
        if name in names then init + [last] else [];
        { assert init + [last] == cats; }
        if name in names then cats else [];
      }
    }
  }

  /** Every call of the pass hands a registered name one of the given catalogs. */
  lemma {:induction false} FanOutCalls(names: seq<string>, cats: seq<Catalog>)
    ensures forall call :: call in FanOut(names, cats) ==>
      call.Process? && call.name in names && call.catalog in cats
    decreases |cats|
  {
    if cats != [] {
      var init := cats[..|cats| - 1];
      FanOutCalls(names, init);
      assert forall c :: c in init ==> c in cats;
    }
  }

  /** The pass over filtered catalogs never gives an accumulator an unfiltered catalog. */
  lemma OnlyFilteredCatalogs(names: seq<string>, stream: seq<Catalog>, endEpoch: int, region: Region)
    ensures forall call :: call in FanOut(names, FilterAll(stream, endEpoch, region)) ==>
      call.Process? && IsFiltered(call.catalog, endEpoch, region)
  {
    var filtered := FilterAll(stream, endEpoch, region);
    FanOutCalls(names, filtered);
    forall c | c in filtered ensures IsFiltered(c, endEpoch, region) {
      var i :| 0 <= i < |stream| && filtered[i] == c;
      FilterCatalogSound(stream[i], endEpoch, region);
    }
  }

  /** The order of the pass: call `i * |names| + j` gives catalog `i` to the `j`-th name. */
  lemma {:induction false} FanOutLayout(names: seq<string>, cats: seq<Catalog>, i: nat, j: nat)
    requires i < |cats| && j < |names|
    ensures |FanOut(names, cats)| == |cats| * |names|
    ensures i * |names| + j < |FanOut(names, cats)|
    ensures FanOut(names, cats)[i * |names| + j] == Process(names[j], cats[i])
    decreases |cats|
  {
    var w, n, init := |names|, |cats| - 1, cats[..|cats| - 1];
    var front, back := FanOut(names, init), StepCalls(names, cats[n]);
    assert FanOut(names, cats) == front + back;
    FanOutLength(names, cats);
    FanOutLength(names, init);
    if i < n {
      FanOutLayout(names, init, i, j);
      assert init[i] == cats[i];
    } else {
      assert i * w + j == |front| + j;
    }
  }

  lemma {:induction false} FanOutLength(names: seq<string>, cats: seq<Catalog>)
    ensures |FanOut(names, cats)| == |cats| * |names|
    decreases |cats|
  {
    if cats != [] {
      FanOutLength(names, cats[..|cats| - 1]);
      assert (|cats| - 1) * |names| + |names| == |cats| * |names|;
    }
  }

  /** The finalize pass evaluates each registered name exactly once and nothing else. */
  lemma {:induction false} EvaluatedOnce(names: seq<string>, name: string)
    requires Distinct(names)
    ensures multiset(EvaluateCalls(names))[Evaluate(name)] == if name in names then 1 else 0
    decreases |names|
  {
    if names != [] {
      var rest := names[1..];
      assert EvaluateCalls(names) == [Evaluate(names[0])] + EvaluateCalls(rest);
      assert name in names <==> name == names[0] || name in rest;
      assert name in rest ==> name != names[0];
      EvaluatedOnce(rest, name);
    }
  }

  lemma FilterAllSnoc(stream: seq<Catalog>, i: nat, endEpoch: int, region: Region)
    requires i < |stream|
    ensures FilterAll(stream[..i + 1], endEpoch, region)
         == FilterAll(stream[..i], endEpoch, region) + [FilterCatalog(stream[i], endEpoch, region)]
  {
  }

  lemma FanOutSnoc(names: seq<string>, cats: seq<Catalog>, c: Catalog)
    ensures FanOut(names, cats + [c]) == FanOut(names, cats) + StepCalls(names, c)
  {
    assert (cats + [c])[..|cats|] == cats;
  }

  lemma SummariesSnoc(kind: TestKind, cats: seq<Catalog>, c: Catalog)
    ensures Summaries(kind, cats + [c]) == Summaries(kind, cats) + [Sample(kind, c)]
  {
  }

  /** The streaming pass (`for i, cat in enumerate(u3)`): each catalog is
      filtered, handed to every accumulator in registry order, and the pass
      stops once `(i+1) % n_cat == 0`. `outcome` is the number of catalogs
      consumed, or the exception the modulo raises when `n_cat == 0`; `calls`
      are the `process_catalog` calls made, in order. */
  method StreamCatalogs(reg: Registry, stream: seq<Catalog>, nCat: int, endEpoch: int, region: Region)
    returns (outcome: Result<nat, Exception>, calls: seq<Call>)
    requires WellFormed(reg)
    modifies Footprint(reg)
    ensures nCat != 0 ==> outcome == Success(Min(Abs(nCat), |stream|))
    ensures nCat == 0 ==> outcome == if stream == [] then Success(0) else Failure(ZeroDivisionError)
    ensures calls == FanOut(reg.keys, FilterAll(stream[..Pulled(|stream|, nCat)], endEpoch, region))
    ensures forall k :: k in reg.entries ==>
      reg.entries[k].data == old(reg.entries[k].data)
        + Summaries(reg.entries[k].kind, FilterAll(stream[..Pulled(|stream|, nCat)], endEpoch, region))
  {
    var names := reg.keys;
    ghost var base := map k | k in reg.entries :: reg.entries[k].data;
    var consumed := 0;
    outcome := Success(0);
    calls := [];
    while consumed < |stream|
      invariant 0 <= consumed <= |stream|
      invariant nCat == 0 ==> consumed == 0
      invariant nCat != 0 ==> consumed < Abs(nCat)
      invariant calls == FanOut(names, FilterAll(stream[..consumed], endEpoch, region))
      invariant Accumulated(reg, base, FilterAll(stream[..consumed], endEpoch, region))
    {
      var filtered := FilterCatalog(stream[consumed], endEpoch, region);
      ghost var done := FilterAll(stream[..consumed], endEpoch, region);
      FilterAllSnoc(stream, consumed, endEpoch, region);
      FanOutSnoc(names, done, filtered);
      var step := StreamStep(reg, base, done, filtered);
      calls := calls + step;
      consumed := consumed + 1;
      // `(i+1) % n_cat == 0`, where `i + 1` is the number of catalogs consumed so far
      if nCat == 0 {
        outcome := Failure(ZeroDivisionError);
        break;
      }
      BreakOnlyAtCap(consumed, nCat);
      if PyMod(consumed, nCat) == 0 {
        break;
      }
    }
    assert consumed == Pulled(|stream|, nCat) by {
      if consumed == |stream| { assert stream[..consumed] == stream; }
    }
    if outcome.Success? {
      outcome := Success(consumed);
    }
  }

  /** Every registered accumulator holds its data from before the pass,
      `base`, followed by its entries for the catalogs `done`. */
  ghost predicate Accumulated(reg: Registry, base: map<string, seq<Sample>>, done: seq<Catalog>)
    reads Footprint(reg)
  {
    forall k :: k in reg.entries ==>
      k in base && reg.entries[k].data == base[k] + Summaries(reg.entries[k].kind, done)
  }

  /** One iteration of the pass, on the accumulators' side. */
  method StreamStep(reg: Registry, ghost base: map<string, seq<Sample>>, ghost done: seq<Catalog>, c: Catalog)
    returns (step: seq<Call>)
    requires WellFormed(reg) && Accumulated(reg, base, done)
    modifies Footprint(reg)
    ensures step == StepCalls(reg.keys, c)
    ensures Accumulated(reg, base, done + [c])
  {
    step := Dispatch(reg, c);
    forall k | k in reg.entries
      ensures reg.entries[k].data == base[k] + Summaries(reg.entries[k].kind, done + [c])
    {
      SummariesSnoc(reg.entries[k].kind, done, c);
    }
  }

  /** One catalog step (`for name, calc in data_products.items()`): every
      accumulator, in registry order, is given its own copy of `c`. */
  method Dispatch(reg: Registry, c: Catalog) returns (step: seq<Call>)
    requires WellFormed(reg)
    modifies Footprint(reg)
    ensures step == StepCalls(reg.keys, c)
    ensures forall k :: k in reg.entries ==>
      reg.entries[k].data == old(reg.entries[k].data) + [Sample(reg.entries[k].kind, c)]
  {
    var names := reg.keys;
    step := [];
    for j := 0 to |names|
      invariant step == StepCalls(names[..j], c)
      invariant forall m :: 0 <= m < j ==>
        reg.entries[names[m]].data == old(reg.entries[names[m]].data) + [Sample(reg.entries[names[m]].kind, c)]
      invariant forall m :: j <= m < |names| ==>
        reg.entries[names[m]].data == old(reg.entries[names[m]].data)
    {
      var acc := reg.entries[names[j]];
      acc.ProcessCatalog(c);
      assert StepCalls(names[..j + 1], c) == StepCalls(names[..j], c) + [Process(names[j], c)];
      step := step + [Process(names[j], c)];
    }
    assert names[..|names|] == names;
    forall k | k in reg.entries
      ensures reg.entries[k].data == old(reg.entries[k].data) + [Sample(reg.entries[k].kind, c)]
    {
      var m :| 0 <= m < |names| && names[m] == k;
    }
  }

  /** The name whose accumulated data the sharing step leaves on `name`. */
  function DataSource(name: string): string {
    if name == "mag-hist" then "m-test"
    else if name == "crd-plot" || name == "like-plot" then "l-test"
    else name
  }

  /** The names the sharing step touches are pairwise different. */
  lemma SharedNamesDiffer()
    ensures "mag-hist" != "m-test" && "crd-plot" != "l-test" && "like-plot" != "l-test"
    ensures "mag-hist" != "crd-plot" && "mag-hist" != "like-plot" && "crd-plot" != "like-plot"
  {
    assert |"mag-hist"| != |"m-test"| && |"crd-plot"| != |"l-test"| && |"like-plot"| != |"l-test"|;
    assert "mag-hist"[0] != "crd-plot"[0] && |"mag-hist"| != |"like-plot"| && |"crd-plot"| != |"like-plot"|;
  }

  /** The sharing step: the magnitude histogram takes the magnitude test's data,
      and the conditional-rate plot and the likelihood plot take the
      likelihood-and-spatial test's data. Nothing else changes. */
  method ShareData(reg: Registry, ghost filtered: seq<Catalog>)
    requires WellFormed(reg) && HoldsStreamed(reg, filtered)
    requires "m-test" in reg.entries && "l-test" in reg.entries
    requires "mag-hist" in reg.entries && "crd-plot" in reg.entries && "like-plot" in reg.entries
    modifies reg.entries["mag-hist"], reg.entries["crd-plot"], reg.entries["like-plot"]
    ensures reg.entries["mag-hist"].data == old(reg.entries["m-test"].data)
    ensures reg.entries["crd-plot"].data == old(reg.entries["l-test"].data)
    ensures reg.entries["like-plot"].data == old(reg.entries["l-test"].data)
    ensures HoldsShared(reg, filtered)
  {
    SharedNamesDiffer();
    DistinctAccumulators(reg, "mag-hist", "m-test");
    DistinctAccumulators(reg, "crd-plot", "l-test");
    DistinctAccumulators(reg, "like-plot", "l-test");
    DistinctAccumulators(reg, "mag-hist", "crd-plot");
    DistinctAccumulators(reg, "mag-hist", "like-plot");
    DistinctAccumulators(reg, "crd-plot", "like-plot");
    reg.entries["mag-hist"].data := reg.entries["m-test"].data;
    reg.entries["crd-plot"].data := reg.entries["l-test"].data;
    reg.entries["like-plot"].data := reg.entries["l-test"].data;
    forall k | k in reg.entries && DataSource(k) == k
      ensures reg.entries[k].data == old(reg.entries[k].data)
    {
      DistinctAccumulators(reg, k, "mag-hist");
      DistinctAccumulators(reg, k, "crd-plot");
      DistinctAccumulators(reg, k, "like-plot");
    }
  }

  /** The finalize pass: `evaluate` once per accumulator, in registry order,
      each result stored under its test name. */
  method Finalize(reg: Registry, observed: Catalog, args: EvalArgs)
    returns (results: Dict<string, EvaluationResult>, calls: seq<Call>)
    requires reg.Valid()
    ensures results.Valid() && results.keys == reg.keys
    ensures forall k {:trigger results.entries[k]} :: k in reg.entries ==>
      k in results.entries && results.entries[k] == EvaluationResult(reg.entries[k].kind, reg.entries[k].data, observed, args)
    ensures calls == EvaluateCalls(reg.keys)
  {
    var names := reg.keys;
    results := EmptyDict();
    calls := [];
    for j := 0 to |names|
      invariant results.Valid() && results.keys == names[..j]
      invariant forall k {:trigger results.entries[k]} :: k in results.entries ==>
        k in reg.entries && results.entries[k] == EvaluationResult(reg.entries[k].kind, reg.entries[k].data, observed, args)
      invariant calls == EvaluateCalls(names[..j])
    {
      var r := reg.entries[names[j]].Evaluate(observed, args);
      InsertNext(results, names, j, r);
      results := results.Insert(names[j], r);
      assert EvaluateCalls(names[..j + 1]) == EvaluateCalls(names[..j]) + [Evaluate(names[j])];
      calls := calls + [Evaluate(names[j])];
    }
    assert names[..|names|] == names;
  }

  /** The `results` dictionary a run leaves for the streamed catalogs
      `filtered`: one result per name of the `data_products` literal, in its
      order, each the evaluation of the name's configured class, against the
      observed catalog and with the run arguments, on the entries that the
      class of its data source derived from each catalog. */
  ghost function ExpectedResults(originEpoch: int, endEpoch: int, filtered: seq<Catalog>,
                                 observed: Catalog, args: EvalArgs): (r: Dict<string, EvaluationResult>)
    ensures r.Valid() && r.keys == DataProductNames
  {
    DataProductNamesDistinct();
    Dict(DataProductNames, map k | k in DataProductNames ::
      EvaluationResult(ConfiguredKind(k, originEpoch, endEpoch),
                       Summaries(ConfiguredKind(DataSource(k), originEpoch, endEpoch), filtered), observed, args))
  }

  /** In the expected results every test is evaluated on the same entries as
      its data source, and the source on the entries of its own class: the
      magnitude histogram shares the magnitude test's entries, the
      conditional-rate plot and the likelihood plot the likelihood-and-spatial
      test's. */
  lemma ExpectedSharing(r: Dict<string, EvaluationResult>, originEpoch: int, endEpoch: int,
                        filtered: seq<Catalog>, observed: Catalog, args: EvalArgs)
    requires r == ExpectedResults(originEpoch, endEpoch, filtered, observed, args)
    ensures forall k :: k in r.entries ==>
      && DataSource(k) in r.entries
      && r.entries[k].samples == r.entries[DataSource(k)].samples
      && r.entries[k].samples == Summaries(r.entries[DataSource(k)].test, filtered)
  {
    forall k | k in r.entries
      ensures DataSource(k) in r.entries
      ensures r.entries[k].samples == r.entries[DataSource(k)].samples
      ensures r.entries[k].samples == Summaries(r.entries[DataSource(k)].test, filtered)
    {
      SharingAt(r, k, originEpoch, endEpoch, filtered, observed, args);
    }
  }

  lemma SharingAt(r: Dict<string, EvaluationResult>, k: string, originEpoch: int, endEpoch: int,
                  filtered: seq<Catalog>, observed: Catalog, args: EvalArgs)
    requires r == ExpectedResults(originEpoch, endEpoch, filtered, observed, args)
    requires k in r.entries
    ensures DataSource(k) in r.entries
    ensures r.entries[k].samples == r.entries[DataSource(k)].samples
    ensures r.entries[k].samples == Summaries(r.entries[DataSource(k)].test, filtered)
  {
    var source := DataSource(k);
    SourceListed(k);
    SourceOfSource(k);
    assert r.entries[k] == EvaluationResult(ConfiguredKind(k, originEpoch, endEpoch),
      Summaries(ConfiguredKind(source, originEpoch, endEpoch), filtered), observed, args);
    assert r.entries[source] == EvaluationResult(ConfiguredKind(source, originEpoch, endEpoch),
      Summaries(ConfiguredKind(source, originEpoch, endEpoch), filtered), observed, args);
  }

  /** The data source of a listed name is listed. */
  lemma SourceListed(name: string)
    requires name in DataProductNames
    ensures DataSource(name) in DataProductNames
  {
    assert DataSource(name) == name || DataSource(name) == DataProductNames[1] || DataSource(name) == DataProductNames[2];
  }

  /** A data source takes its data from itself. */
  lemma SourceOfSource(name: string)
    ensures DataSource(DataSource(name)) == DataSource(name)
  {
    assert |"m-test"| == |"l-test"| == 6 && |"mag-hist"| == |"crd-plot"| == 8 && |"like-plot"| == 9;
  }

  /** Every test of `reg` has a result: its class evaluated on the entries its
      data source derived from the catalogs `filtered`. */
  ghost predicate EvaluatedOnSources(reg: Registry, results: Dict<string, EvaluationResult>,
                                     filtered: seq<Catalog>, observed: Catalog, args: EvalArgs)
  {
    forall k {:trigger results.entries[k]} :: k in reg.entries ==>
      && DataSource(k) in reg.entries && k in results.entries
      && results.entries[k] == EvaluationResult(reg.entries[k].kind,
           Summaries(reg.entries[DataSource(k)].kind, filtered), observed, args)
  }

  /** A run whose results hold, under every name, the evaluation of its test
      on the streamed data of its source test agrees with the expected results
      on every name. */
  lemma AgreesWithExpected(reg: Registry, results: Dict<string, EvaluationResult>, originEpoch: int, endEpoch: int,
                           filtered: seq<Catalog>, observed: Catalog, args: EvalArgs)
    requires Configured(reg, originEpoch, endEpoch)
    requires forall k :: k in results.entries ==> k in reg.entries && k in reg.keys
    requires EvaluatedOnSources(reg, results, filtered, observed, args)
    ensures Agrees(results, ExpectedResults(originEpoch, endEpoch, filtered, observed, args))
  {
    var expected := ExpectedResults(originEpoch, endEpoch, filtered, observed, args);
    forall k | k in results.entries
      ensures k in expected.entries && results.entries[k] == expected.entries[k]
    {
    }
  }

  /** Such a run leaves exactly the expected results. */
  lemma ExpectedFrom(reg: Registry, results: Dict<string, EvaluationResult>, originEpoch: int, endEpoch: int,
                     filtered: seq<Catalog>, observed: Catalog, args: EvalArgs)
    requires reg.Valid() && Configured(reg, originEpoch, endEpoch)
    requires results.Valid() && results.keys == reg.keys
    requires EvaluatedOnSources(reg, results, filtered, observed, args)
    ensures results == ExpectedResults(originEpoch, endEpoch, filtered, observed, args)
  {
    AgreesWithExpected(reg, results, originEpoch, endEpoch, filtered, observed, args);
    Extensional(results, ExpectedResults(originEpoch, endEpoch, filtered, observed, args));
  }

  /** Every accumulator of `reg` holds its entries for the catalogs `filtered`. */
  ghost predicate HoldsStreamed(reg: Registry, filtered: seq<Catalog>)
    reads Footprint(reg)
  {
    forall k {:trigger reg.entries[k].data} :: k in reg.entries ==>
      reg.entries[k].data == Summaries(reg.entries[k].kind, filtered)
  }

  /** Every accumulator of `reg` holds the entries its data source derived
      from the catalogs `filtered`. */
  ghost predicate HoldsShared(reg: Registry, filtered: seq<Catalog>)
    reads Footprint(reg)
  {
    forall k {:trigger reg.entries[k].data} :: k in reg.entries ==>
      DataSource(k) in reg.entries && reg.entries[k].data == Summaries(reg.entries[DataSource(k)].kind, filtered)
  }

  /** The finalize pass after sharing leaves exactly the expected results. */
  method FinalizeShared(reg: Registry, originEpoch: int, endEpoch: int, ghost filtered: seq<Catalog>,
                        observed: Catalog, args: EvalArgs)
    returns (results: Dict<string, EvaluationResult>, calls: seq<Call>)
    requires reg.Valid() && Configured(reg, originEpoch, endEpoch) && HoldsShared(reg, filtered)
    ensures results == ExpectedResults(originEpoch, endEpoch, filtered, observed, args)
    ensures calls == EvaluateCalls(DataProductNames)
  {
    results, calls := Finalize(reg, observed, args);
    ExpectedFrom(reg, results, originEpoch, endEpoch, filtered, observed, args);
  }

  /** The part of the run after streaming: share data, then finalize. Every
      test is evaluated on the streamed data of the test it takes its data from. */
  method ShareAndFinalize(reg: Registry, originEpoch: int, endEpoch: int, ghost filtered: seq<Catalog>,
                          observed: Catalog, args: EvalArgs)
    returns (results: Dict<string, EvaluationResult>, calls: seq<Call>)
    requires WellFormed(reg) && Configured(reg, originEpoch, endEpoch) && HoldsStreamed(reg, filtered)
    modifies Footprint(reg)
    ensures results == ExpectedResults(originEpoch, endEpoch, filtered, observed, args)
    ensures calls == EvaluateCalls(DataProductNames)
  {
    assert DataProductNames[1] in reg.entries && DataProductNames[2] in reg.entries;
    assert DataProductNames[4] in reg.entries && DataProductNames[5] in reg.entries && DataProductNames[7] in reg.entries;
    ShareData(reg, filtered);
    results, calls := FinalizeShared(reg, originEpoch, endEpoch, filtered, observed, args);
  }
}
