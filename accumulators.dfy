/** The evaluation accumulators and the registry `data_products` that names them.
    The statistics of each test live in a library this model does not contain, so
    an accumulator's `data` records, for every catalog it was given, which test
    derived the entry and from which catalog. */
module Accumulators {
  import opened Catalogs
  import opened Dicts

  /** The eight accumulator classes the driver instantiates, with their constructor arguments. */
  datatype TestKind =
    | NumberTest
    | MagnitudeTest
    | LikelihoodAndSpatialTest
    | CumulativeEventPlot(originEpoch: int, endEpoch: int)
    | MagnitudeHistogram(compute: bool)
    | ConditionalRatePlot(compute: bool)
    | BValueTest
    | SpatialLikelihoodPlot(compute: bool)

  /** One entry of an accumulator's `data`: what test `source` derived from `catalog`. */
  datatype Sample = Sample(source: TestKind, catalog: Catalog)

  /** The tuple `args=(u3, time_horizon, end_epoch, n_cat)`: the catalog stream
      handle (the catalogs it has not yet yielded), the time horizon, the
      evaluation epoch and the configured ensemble size. */
  datatype EvalArgs = EvalArgs(remaining: seq<Catalog>, timeHorizon: real, endEpoch: int, ensembleSize: int)

  /** What `evaluate` returns: determined by the test, its accumulated data, the
      observed catalog and the run arguments. */
  datatype EvaluationResult = EvaluationResult(test: TestKind, samples: seq<Sample>, observed: Catalog, args: EvalArgs)

  class Accumulator {
    const kind: TestKind
    var data: seq<Sample>

    constructor (kind: TestKind)
      ensures this.kind == kind && data == []
    {
      this.kind := kind;
      data := [];
    }

    /** `process_catalog`: adds this test's entry for one catalog to `data`. */
    method ProcessCatalog(c: Catalog)
      modifies this
      ensures data == old(data) + [Sample(kind, c)]
    {
      data := data + [Sample(kind, c)];
    }

    /** `evaluate`: finalizes the test from its current `data` alone; it changes nothing. */
    method Evaluate(observed: Catalog, args: EvalArgs) returns (r: EvaluationResult)
      ensures r.test == kind && r.samples == data
      ensures r.observed == observed && r.args == args
    {
      r := EvaluationResult(kind, data, observed, args);
    }
  }

  /** `data_products`: test name to accumulator, in insertion order. */
  type Registry = Dict<string, Accumulator>

  /** A registry whose names map to pairwise distinct accumulator objects. */
  ghost predicate WellFormed(reg: Registry) {
    reg.Valid() &&
    forall i, j :: 0 <= i < j < |reg.keys| ==> reg.entries[reg.keys[i]] != reg.entries[reg.keys[j]]
  }

  /** In a well-formed registry, two different names never share one accumulator. */
  lemma DistinctAccumulators(reg: Registry, a: string, b: string)
    requires WellFormed(reg) && a in reg.entries && b in reg.entries && a != b
    ensures reg.entries[a] != reg.entries[b]
  {
    var i :| 0 <= i < |reg.keys| && reg.keys[i] == a;
    var j :| 0 <= j < |reg.keys| && reg.keys[j] == b;
    if i > j {
      assert reg.entries[reg.keys[j]] != reg.entries[reg.keys[i]];
    }
  }

  function Footprint(reg: Registry): set<Accumulator> {
    reg.entries.Values
  }

  /** The footprint of a registry is the set of the accumulators it lists. */
  lemma FootprintOf(reg: Registry, accs: seq<Accumulator>)
    requires reg.Valid() && |accs| == |reg.keys|
    requires forall m :: 0 <= m < |accs| ==> reg.entries[reg.keys[m]] == accs[m]
    ensures forall a :: a in Footprint(reg) ==> a in accs
  {
    forall a | a in Footprint(reg) ensures a in accs {
      var k :| k in reg.entries && reg.entries[k] == a;
      var m :| 0 <= m < |reg.keys| && reg.keys[m] == k;
      assert accs[m] == a;
    }
  }

  const DataProductNames: seq<string> :=
    ["n-test", "m-test", "l-test", "cum-plot", "mag-hist", "crd-plot", "bv-test", "like-plot"]

  /** The names of the `data_products` literal are pairwise distinct. */
  lemma DataProductNamesDistinct()
    ensures forall i, j :: 0 <= i < j < |DataProductNames| ==> DataProductNames[i] != DataProductNames[j]
  {
    forall i, j | 0 <= i < j < |DataProductNames| ensures DataProductNames[i] != DataProductNames[j] {
      var a, b := DataProductNames[i], DataProductNames[j];
      assert |a| != |b| || a[0] != b[0] || a[1] != b[1];
    }
  }

  /** Builds a registry of fresh accumulators with empty data, inserting the
      names in order, the accumulator of each name being of class `kindOf(name)`. */
  method NewRegistry(names: seq<string>, kindOf: string -> TestKind) returns (reg: Registry)
    requires Distinct(names)
    ensures WellFormed(reg) && fresh(Footprint(reg))
    ensures reg.keys == names
    ensures forall k :: k in reg.entries ==> reg.entries[k].kind == kindOf(k) && reg.entries[k].data == []
  {
    var accs: seq<Accumulator> := [];
    for i := 0 to |names|
      invariant |accs| == i
      invariant forall m :: 0 <= m < i ==> fresh(accs[m]) && accs[m].kind == kindOf(names[m]) && accs[m].data == []
      invariant forall m, n :: 0 <= m < n < i ==> accs[m] != accs[n]
    {
      var acc := new Accumulator(kindOf(names[i]));
      accs := accs + [acc];
    }
    reg := Dict(names, map m | 0 <= m < |names| :: names[m] := accs[m]);
    assert forall m :: 0 <= m < |names| ==> reg.entries[names[m]] == accs[m];
    FootprintOf(reg, accs);
  }

  /** The class and constructor arguments the `data_products` literal gives
      each of its names; `like-plot`, the last entry, is the remaining case. */
  function ConfiguredKind(name: string, originEpoch: int, endEpoch: int): TestKind {
    if name == "n-test" then NumberTest
    else if name == "m-test" then MagnitudeTest
    else if name == "l-test" then LikelihoodAndSpatialTest
    else if name == "cum-plot" then CumulativeEventPlot(originEpoch, endEpoch)
    else if name == "mag-hist" then MagnitudeHistogram(false)
    else if name == "crd-plot" then ConditionalRatePlot(false)
    else if name == "bv-test" then BValueTest
    else SpatialLikelihoodPlot(false)
  }

  /** `reg` lists the names of the `data_products` literal in order, each with
      the class the literal gives it. */
  predicate Configured(reg: Registry, originEpoch: int, endEpoch: int) {
    && reg.keys == DataProductNames
    && forall k {:trigger reg.entries[k]} :: k in reg.entries ==> reg.entries[k].kind == ConfiguredKind(k, originEpoch, endEpoch)
  }

  /** Builds the `data_products` literal: eight fresh accumulators with empty data. */
  method NewDataProducts(originEpoch: int, endEpoch: int) returns (reg: Registry)
    ensures WellFormed(reg) && fresh(Footprint(reg))
    ensures Configured(reg, originEpoch, endEpoch)
    ensures forall k :: k in reg.entries ==> reg.entries[k].data == []
  {
    DataProductNamesDistinct();
    reg := NewRegistry(DataProductNames, name => ConfiguredKind(name, originEpoch, endEpoch));
  }
}
