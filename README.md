# Streaming multi-test evaluation of a simulated earthquake forecast

This project models the driver script `examples/sequential_processing.py` of
the pyCSEP evaluation toolkit, and proves properties of the model.

The script evaluates a forecast that is given as a stream of simulated
earthquake catalogs:

- It builds `data_products`, an ordered dictionary from a test name to an
  evaluation accumulator.
- It makes one pass over the simulated catalogs. Each catalog is filtered by
  an origin-time cut-off and then by a spatial region. A copy of the result is
  handed to every accumulator. The pass stops after `n_cat` catalogs.
- It shares accumulated data: the magnitude histogram takes the magnitude
  test's data, and the conditional-rate plot and the likelihood plot take the
  likelihood-and-spatial test's data.
- It finalizes each accumulator once, against the observed catalog, and
  collects the results by name.

It also models the helper `generate_table_from_results`. That helper builds a
summary table of quantiles and inserts `' '` at the front of the caller's own
`mws` list.

Modules:

- `Wrappers`: `Option`, `Result`, and the two exceptions the modelled driver code raises (`KeyError`, `ZeroDivisionError`).
- `Dicts`: a Python `dict` as an insertion-ordered dictionary.
- `Catalogs`: events, catalogs, and the time filter and spatial filter.
- `Accumulators`: the eight accumulator classes, the `Accumulator` class with its mutable `data`, and the `data_products` registry.
- `Streaming`: the streaming pass, the sharing step, the finalize pass, and the results they leave.
- `Script`: the whole run.
- `ResultsTable`: `generate_table_from_results`.

What the model states about the whole run (`Script.RunEvaluation`):

- The run fails exactly when `n_cat == 0` and the stream is not empty. It then
  raises `ZeroDivisionError` after the first catalog has already been fanned out.
- Otherwise it consumes `min(|n_cat|, available)` catalogs.
- It hands every filtered catalog to every accumulator, in registry order.
- It evaluates every name exactly once.
- Its results are exactly `Streaming.ExpectedResults`: one result per name, in
  `data_products` order. Each result is of the name's configured class and is
  computed on the entries of its data source.

## Model

| member | source | states |
|---|---|---|
| Catalogs.Keep | examples/sequential_processing.py:93 | a filter keeps exactly the events that satisfy its criterion, and never more events than it was given |
| Catalogs.FilterCatalogSound | examples/sequential_processing.py:93 | every event of a filtered catalog is before the cut-off and inside the region; no qualifying event is lost; the catalog does not grow |
| Catalogs.FilterCatalogKeepsOrder | examples/sequential_processing.py:93 | the time filter followed by the spatial filter keeps exactly the events meeting both criteria, in the simulated catalog's order |
| Catalogs.KeepKeep | examples/sequential_processing.py:93 | two chained filters equal one filter on the conjunction of their criteria |
| Catalogs.KeepAppend | examples/sequential_processing.py:93 | filtering distributes over concatenation, so event order is preserved |
| Catalogs.FilterIdempotent | examples/sequential_processing.py:93 | filtering an already filtered catalog changes nothing |
| Accumulators.Accumulator.constructor | examples/sequential_processing.py:80-87 | a new accumulator has its class and empty data |
| Accumulators.Accumulator.ProcessCatalog | examples/sequential_processing.py:95 | `process_catalog` appends this test's entry for the catalog to `data`, and changes nothing else |
| Accumulators.Accumulator.Evaluate | examples/sequential_processing.py:110 | `evaluate` depends only on the class, the current `data`, the observed catalog and `args`, and changes nothing |
| Accumulators.DataProductNamesDistinct | examples/sequential_processing.py:78-88 | the eight keys of the `data_products` literal are pairwise distinct |
| Accumulators.DistinctAccumulators | examples/sequential_processing.py:78-88 | in a well-formed registry, two names never share one accumulator object |
| Accumulators.NewRegistry | examples/sequential_processing.py:78-88 | the registry lists the names in order and holds pairwise distinct fresh accumulators with empty data, each of the class given for its name |
| Accumulators.NewDataProducts | examples/sequential_processing.py:78-88 | `data_products` has the eight keys in literal order, each of its configured class and with its constructor arguments, all data empty |
| Dicts.Dict.Get | examples/sequential_processing.py:36 | `d[k]` gives the value of `k`, or `KeyError(k)` exactly when `k` is absent |
| Dicts.Dict.Insert | examples/sequential_processing.py:112 | `d[k] = v`: an existing key keeps its place, a new key goes last; the dictionary stays valid |
| Dicts.InsertNext | examples/sequential_processing.py:107-112 | inserting distinct names one by one lists them in that order and leaves earlier values alone |
| Streaming.PyMod | examples/sequential_processing.py:96 | Python's `%`: the result lies between zero and the divisor, on the divisor's side of zero; it differs from the dividend by a multiple of the divisor; and it is zero exactly when the divisor divides the dividend |
| Streaming.BreakOnlyAtCap | examples/sequential_processing.py:96-97 | the break test `(i+1) % n_cat == 0` first holds after exactly `abs(n_cat)` catalogs, for either sign of `n_cat` |
| Streaming.StreamCatalogs | examples/sequential_processing.py:90-99 | the pass consumes `min(abs(n_cat), available)` catalogs, or raises `ZeroDivisionError` after the first one when `n_cat == 0`; its calls are the fan-out of the filtered catalogs; every accumulator's data grows by its entries for them |
| Streaming.StreamStep | examples/sequential_processing.py:92-95 | one iteration keeps the invariant: the data is what it was before the pass, followed by the entries for the catalogs filtered so far |
| Streaming.Dispatch | examples/sequential_processing.py:94-95 | one catalog step calls every name once, in registry order, and appends one entry to every accumulator |
| Streaming.StepDelivers | examples/sequential_processing.py:94-95 | in one step, a registered name receives the catalog exactly once and an unregistered name receives nothing |
| Streaming.FanOutDelivers | examples/sequential_processing.py:92-95 | over the pass, every registered name receives every filtered catalog exactly once, in stream order |
| Streaming.FanOutCalls | examples/sequential_processing.py:92-95 | every call of the pass gives a registered name one of the streamed catalogs |
| Streaming.OnlyFilteredCatalogs | examples/sequential_processing.py:93-95 | no accumulator is ever given an event after the cut-off or outside the region |
| Streaming.FanOutLayout | examples/sequential_processing.py:92-95 | the pass is sequential: call `i * names + j` hands catalog `i` to the `j`-th name, so catalog `i` is fully fanned out before catalog `i + 1` |
| Streaming.FanOutLength | examples/sequential_processing.py:92-95 | the pass makes one call per (catalog, name) pair |
| Streaming.ShareData | examples/sequential_processing.py:102-104 | the three sharing assignments: each target gets the old data of its source; only those three accumulators change; it requires the five names to be present, since a missing one raises `KeyError` |
| Streaming.SourceOfSource | examples/sequential_processing.py:102-104 | the sharing step has a single level: a data source takes its data from itself |
| Streaming.Finalize | examples/sequential_processing.py:107-112 | the finalize pass stores, under every name and in registry order, the evaluation of that accumulator's current data; the calls are one `evaluate` per name |
| Streaming.EvaluatedOnce | examples/sequential_processing.py:108-112 | the finalize pass evaluates each registered name exactly once and nothing else |
| Streaming.FinalizeShared | examples/sequential_processing.py:107-112 | finalizing after sharing yields exactly the expected results |
| Streaming.AgreesWithExpected | examples/sequential_processing.py:102-112 | a result stored under every name, computed on its data source's streamed entries, agrees with the expected results |
| Streaming.ExpectedFrom | examples/sequential_processing.py:102-112 | such results are exactly the expected results dictionary |
| Streaming.ExpectedSharing | examples/sequential_processing.py:102-104 | in the expected results, every test is evaluated on the same entries as its data source, and the source on the entries of its own class |
| Streaming.SharingAt | examples/sequential_processing.py:102-104 | the same, for one name |
| Streaming.ShareAndFinalize | examples/sequential_processing.py:102-116 | sharing and then finalizing a configured registry holding the streamed entries yields exactly the expected results, with one `evaluate` per name |
| Script.BuildAndStream | examples/sequential_processing.py:78-99 | after building `data_products` and streaming, the registry is configured and every accumulator holds exactly its entries for the consumed catalogs |
| Script.RunEvaluation | examples/sequential_processing.py:78-116 | the whole run: fails exactly when `n_cat == 0` with a non-empty stream; otherwise consumes `min(abs(n_cat), available)` catalogs, makes the fan-out calls and then one `evaluate` per name, and returns exactly the expected results, with `args` carrying the not-yet-consumed stream, `time_horizon`, `end_epoch` and `n_cat` |
| ResultsTable.GenerateTable | examples/sequential_processing.py:28-43 | the caller's `mws` gains `' '` at its front, even when a lookup then fails; the outcome is the specified table |
| ResultsTable.BuildRow | examples/sequential_processing.py:34-42 | a row is the bold test label, then the quantile of each threshold in key order, skipping results without a quantile |
| ResultsTable.TableOfPrefix | examples/sequential_processing.py:33-36 | a lookup failure at a prefix of `tests` is the failure of the whole table |
| ResultsTable.QuantileCellsAppend | examples/sequential_processing.py:37-41 | the quantile cells of a concatenation of thresholds are the cells of each part, in order |
| ResultsTable.QuantileCellsBound | examples/sequential_processing.py:37-41 | a row has at most one cell per threshold, and every cell is the quantile of one of the thresholds |
| ResultsTable.QuantileCellsAllPresent | examples/sequential_processing.py:37-41 | when every threshold has a quantile, the row lists all of them, in key order |
| ResultsTable.RowShape | examples/sequential_processing.py:34-42 | a row starts with `'<b>' + test + '</b>'`, then holds at most one number per threshold, each a quantile of that test |
| ResultsTable.RowsSucceed | examples/sequential_processing.py:33-42 | the rows succeed exactly when every test has results; then there is one row per test, in order |
| ResultsTable.RowsFail | examples/sequential_processing.py:33-36 | on failure, the error is the `KeyError` of the first test that has no results |
| ResultsTable.TableShape | examples/sequential_processing.py:28-43 | the table succeeds exactly when every test has results. It then has `' '` plus the original `mws` as header row, followed by one row per test. Otherwise it fails with the `KeyError` of the first missing test |

## Behaviour at the edges of the input

- When the stream holds fewer than `n_cat` catalogs, the script reports
  nothing: the pass just ends with the last catalog. The model does the same.
- `n_cat == 0` makes `(i+1) % n_cat` raise `ZeroDivisionError` after the
  first catalog has been handed to every accumulator.
- A negative `n_cat` caps the pass at `abs(n_cat)`, because Python's `%` is
  zero exactly on multiples of the divisor.
- The script assigns the three `.data` attributes directly, with no check that
  the source and target tests are compatible. The model does the same: it
  requires only that the five names be present.

## Left out

- Loading the observed catalog and the simulated catalogs, fetching the event, and building the region: lines 57-74 and 91 are I/O. The model takes as parameters the catalog stream, the observed catalog, the region (as a membership test), `origin_epoch`, `end_epoch` and `time_horizon`.
- Script.RunEvaluation: the model assumes that the external calls never raise: `cat.filter` and `filter_spatial` (line 93), `process_catalog` (line 95), `evaluate` (line 110) and `plot` (line 114). The driver has no `try`/`except`, so such an exception would end the run, and during the pass it would leave some accumulators updated and others not. The run's "fails exactly when" clause is stated under this assumption.
- Timing, progress bars and messages: `time.time()`, `tqdm` and `print` do not affect results. `tqdm`'s `total=n_cat` is display only.
- Plotting (`calc.plot`, line 114) and the notebook report (lines 121-155): output only. The commented-out table call at lines 143-150 is not part of the run.
- The statistics of each test live in the evaluation library, which is not part of this model. `process_catalog` is modelled as appending a `Sample` that records the test class and the filtered catalog. `evaluate` is modelled as a value determined by the class, the data, the observed catalog and `args`. Exceptions raised inside `evaluate` are not modelled.
- Accumulators.Accumulator.ProcessCatalog: the `calc=False` flag of three plots is kept as a constructor argument, but its effect inside the library is not modelled. Those accumulators still append entries while streaming. The sharing step overwrites their data anyway.
- The filter string `f'origin_time < {end_epoch}'` is modelled by its meaning, a strict comparison on origin time. Parsing the string is not modelled.
- `copy.copy(cat_filt)` is modelled as passing the catalog value. Catalogs are immutable values in the model, so a copy is equal to the original.
- Streaming.ShareData: Python makes the two names refer to the same list object. The model copies the sequence value. The driver does not touch any `.data` after line 104. The model assumes that `evaluate` (line 110) and `plot` (line 114) do not change `.data` in place; under that assumption a copy gives the same results. Were `crd-plot`'s `evaluate` to change its list, `like-plot` would see the change in the script but not in the model. Aliasing of the lists themselves is not modelled.
- The `u3` handle passed in `args` is modelled as the catalogs the stream has not yet yielded. Re-iterating a one-shot generator is not modelled.
- `generate_table_from_results` has no `quantile` attribute check. It catches `AttributeError`, which is modelled as `quantile == None`. Thresholds are modelled as `real` keys, and a `quantile` as a `real`: a quantile of another type, such as a tuple, is not modelled. Python tuples are modelled as sequences.
