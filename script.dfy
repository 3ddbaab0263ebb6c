/** The script itself: build `data_products`, stream the simulated catalogs
    into it, share data, and finalize. */
module Script {
  import opened Wrappers
  import opened Dicts
  import opened Catalogs
  import opened Accumulators
  import opened Streaming

  /** The whole run: build `data_products`, stream the catalogs, share data,
      finalize. On success, every test is evaluated against `observed` with
      the configured `n_cat` as ensemble size and the stream handle positioned
      after the consumed catalogs; the three sharing tests are evaluated on the
      data of the test they share with. */
  method RunEvaluation(stream: seq<Catalog>, nCat: int, originEpoch: int, endEpoch: int, region: Region,
                       observed: Catalog, timeHorizon: real)
    returns (outcome: Result<Dict<string, EvaluationResult>, Exception>, calls: seq<Call>)
    ensures outcome.Failure? <==> nCat == 0 && stream != []
    ensures outcome.Failure? ==>
      outcome.error == ZeroDivisionError &&
      calls == FanOut(DataProductNames, FilterAll(stream[..1], endEpoch, region))
    ensures outcome.Success? ==>
      var n := Min(Abs(nCat), |stream|);
      var filtered := FilterAll(stream[..n], endEpoch, region);
      && calls == FanOut(DataProductNames, filtered) + EvaluateCalls(DataProductNames)
      && outcome.value == ExpectedResults(originEpoch, endEpoch, filtered, observed,
                                          EvalArgs(stream[n..], timeHorizon, endEpoch, nCat))
  {
    var reg, streamed, streamCalls := BuildAndStream(stream, nCat, originEpoch, endEpoch, region);
    if streamed.Failure? {
      outcome, calls := Failure(streamed.error), streamCalls;
      return;
    }
    var n := streamed.value;
    var args := EvalArgs(stream[n..], timeHorizon, endEpoch, nCat);
    ghost var filtered := FilterAll(stream[..n], endEpoch, region);
    var results, finalCalls := ShareAndFinalize(reg, originEpoch, endEpoch, filtered, observed, args);
    outcome, calls := Success(results), streamCalls + finalCalls;
  }

  /** The run up to the sharing step: build `data_products`, then stream the
      catalogs into it. */
  method BuildAndStream(stream: seq<Catalog>, nCat: int, originEpoch: int, endEpoch: int, region: Region)
    returns (reg: Registry, streamed: Result<nat, Exception>, calls: seq<Call>)
    ensures WellFormed(reg) && fresh(Footprint(reg)) && Configured(reg, originEpoch, endEpoch)
    ensures streamed.Failure? <==> nCat == 0 && stream != []
    ensures streamed.Failure? ==>
      streamed.error == ZeroDivisionError &&
      calls == FanOut(DataProductNames, FilterAll(stream[..1], endEpoch, region))
    ensures streamed.Success? ==>
      && streamed.value == Min(Abs(nCat), |stream|)
      && calls == FanOut(DataProductNames, FilterAll(stream[..streamed.value], endEpoch, region))
      && HoldsStreamed(reg, FilterAll(stream[..streamed.value], endEpoch, region))
  {
    reg := NewDataProducts(originEpoch, endEpoch);
    streamed, calls := StreamCatalogs(reg, stream, nCat, endEpoch, region);
    assert HoldsStreamed(reg, FilterAll(stream[..Pulled(|stream|, nCat)], endEpoch, region));
  }
}
