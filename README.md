# lsst.verify metric collections and the PPDB config loader, in Dafny

This project models two parts of the LSST `verify` package and proves
properties about them.

* `MetricSet` (`python/lsst/verify/metricset.py`) is a mutable collection of
  metric definitions keyed by metric name. Every key is the name of the
  metric stored under it. The collection supports item access and
  assignment, deletion, `insert` with replacement, merging (`update`, `+=`),
  selection by package and tags (`subset`), equality, and a count-dependent
  `str`. The model is the class `MetricSets.MetricSet` over a
  `map<Name, Metric>` field. Its mutators are methods that modify only the
  set itself and state its new state exactly, except after a part-way
  failure of `update` or `+=`, where the state is described entry by entry.
  The queries are functions.
* `ConfigPpdbLoader` and `PpdbMetricTask`
  (`python/lsst/verify/tasks/ppdbMetricTask.py`) find the prompt products
  database (PPDB) configured somewhere in a science task's config tree, and
  hand it to a metric's `makeMeasurement` hook. The config tree is a
  datatype with one variant per kind of field the loader recognises. The
  mutually recursive search is a set of recursive functions returning
  `Option`. They are proved equal to "the first database in visiting order"
  of an independent candidate list.

Files:

| file | module | contents |
|---|---|---|
| `wrappers.dfy` | `Wrappers` | `Option`, `Result` |
| `naming.dfy` | `Naming` | `Name`, `Metric`, `Value` (the abstractions of the classes `MetricSet` uses) |
| `format.dfy` | `Format` | decimal rendering of counts (`'{:d}'`) and its inverse |
| `metricset.dfy` | `MetricSets` | the `MetricSet` class, its specification functions and lemmas |
| `ppdb_metric_task.dfy` | `PpdbMetricTask` | config tree, search, loader `run`, `adaptArgsAndRun`, `run` |

Abstractions:

* `Name` has an optional package part and an optional metric part.
  `IsMetric` means the metric part is present (specification names are not
  modelled). `n.InPackage(p)` is `n in p`: `p` is a bare package name and
  `n` has that package.
* `Metric` is a record of a name, a tag set and the remaining attributes
  (folded into one `description` field). Metric equality is datatype
  equality.
* A Python object passed where a `Metric` is expected is a `Value`: either a
  metric or something else. This is how the TypeError paths are modelled.
* Raised exceptions are `Failure`/`Some` error values (`MetricSets.Error`,
  `PpdbMetricTask.TaskError`). A failed `__setitem__`, `insert` or
  `__delitem__` leaves the collection unchanged.
* `Ppdb(config)` and `ConfigurableInstance.apply()` are the uninterpreted
  constructors `Db.Ppdb` and `Db.Applied`. `dbLoader.run(...).ppdb`,
  `makeMeasurement` and `addStandardMetadata` are function parameters of
  `AdaptArgsAndRun`.

Behaviour of the code worth knowing:

* `MetricSet.__init__` stores each element under its own `name` without the
  `is_metric` check that `__setitem__` makes. So `MetricSet.New` keeps the
  collection invariant but does not require metric names.
  `deserialize`, `insert` and `update` do go through `__setitem__` and
  raise KeyError for a non-metric name.
* `deserialize()` with its default argument `None` iterates `None` and
  raises TypeError (`NotIterable` in the model).
* `subset` with an empty tag list selects every metric, because the empty
  set is a subset of every tag set. It always selects nothing when neither
  a package nor tags are given.
* `_getPpdbFromConfigurableField` compares `ConfigClass == PpdbConfig`
  exactly. A configurable whose class is a subclass of `PpdbConfig` is
  searched through its value, which is a `PpdbConfig` leaf. The result is
  then `Ppdb(value)`, not `apply()`.
* A PPDB leaf ends the search: its own fields are not looked into.

## Model

| member | source | states |
|---|---|---|
| `MetricSets.CheckItem` | python/lsst/verify/metricset.py:210-224 | `__setitem__`'s checks pass exactly when the key is a metric name, the value is a Metric and its name is the key. A failure names the key, and its class is KeyError unless the key is a metric name and the value is not a Metric (TypeError). |
| `MetricSets.SetItemKeepsConsistent` | python/lsst/verify/metricset.py:206-226 | a store that passes the checks keeps every key equal to its metric's name |
| `MetricSets.InsertedKeys` | python/lsst/verify/metricset.py:49-54 | inserting a list of metrics one by one adds exactly the names of the list |
| `MetricSets.InsertedLastWins` | python/lsst/verify/metricset.py:187-191 | after inserting in list order, a name maps to the last metric of the list with that name (a later duplicate wins) |
| `MetricSets.InsertedUntouched` | python/lsst/verify/metricset.py:293-303 | names absent from the inserted list keep their previous presence and metric |
| `MetricSets.InsertedConsistent` | python/lsst/verify/metricset.py:49-54 | inserting metrics under their own names preserves the key-equals-name invariant |
| `MetricSets.Select` | python/lsst/verify/metricset.py:357-379 | `subset`'s selection holds only entries of the original set, unchanged, and keeps the collection invariant |
| `MetricSets.SelectByPackage` | python/lsst/verify/metricset.py:363-365 | with a package only, a name is selected iff it is in the set and belongs to the package |
| `MetricSets.SelectByTags` | python/lsst/verify/metricset.py:372-374 | with tags only, a name is selected iff its metric's tags include all given tags |
| `MetricSets.SelectBothIsIntersection` | python/lsst/verify/metricset.py:352-355 | with both, the selected names are the intersection of the package-only and tags-only selections |
| `MetricSets.SelectNeither` | python/lsst/verify/metricset.py:376-377 | with neither a package nor tags, the selection is empty |
| `MetricSets.SelectEmptyTags` | python/lsst/verify/metricset.py:360-374 | an empty tag list selects the whole set |
| `MetricSets.Describe` | python/lsst/verify/metricset.py:245-253 | `'<MetricSet: empty>'` for 0, `'<MetricSet: 1 Metric>'` for 1, `'<MetricSet: N Metrics>'` with N in decimal otherwise |
| `MetricSets.DescribeInjective` | python/lsst/verify/metricset.py:245-253 | different counts give different strings |
| `MetricSets.EqualsReflexive` | python/lsst/verify/metricset.py:255-269 | every set equals itself, and `__ne__` is false on it |
| `MetricSets.MetricSet.Empty` | python/lsst/verify/metricset.py:44-47 | a new set is empty and satisfies the invariant |
| `MetricSets.MetricSet.New` | python/lsst/verify/metricset.py:44-54 | TypeError iff some element is not a Metric, reporting the first such index. Otherwise the set holds the list inserted in order, with the invariant established. |
| `MetricSets.MetricSet.Deserialize` | python/lsst/verify/metricset.py:172-191 | TypeError for no list. KeyError iff some metric's name is not a metric name, reporting the first. Otherwise the list is inserted in order. |
| `MetricSets.MetricSet.Get` | python/lsst/verify/metricset.py:201-204 | succeeds iff the key is present; the metric it returns has that key as its name. KeyError otherwise. |
| `MetricSets.MetricSet.Contains` | python/lsst/verify/metricset.py:236-239 | true exactly for the keys `__getitem__` succeeds on |
| `MetricSets.MetricSet.Length` | python/lsst/verify/metricset.py:233-234 | zero exactly for the empty set |
| `MetricSets.MetricSet.ToString` | python/lsst/verify/metricset.py:245-253 | the text is `Describe` of the set's size: `'<MetricSet: empty>'` iff the set is empty, `'<MetricSet: 1 Metric>'` iff it holds one metric, and `'<MetricSet: N Metrics>'` otherwise |
| `MetricSets.MetricSet.Equals` | python/lsst/verify/metricset.py:255-266 | the size-then-lookup comparison holds iff the two sets hold the same names with equal metrics |
| `MetricSets.MetricSet.NotEquals` | python/lsst/verify/metricset.py:268-269 | true iff the two sets differ |
| `MetricSets.MetricSet.SetItem` | python/lsst/verify/metricset.py:206-226 | on success the key maps to the value and nothing else changes. On each failed check the set is unchanged and the error is the first failed check. The invariant is kept. |
| `MetricSets.MetricSet.Delete` | python/lsst/verify/metricset.py:228-231 | a present key is removed and nothing else is, so the length drops by one. An absent key gives KeyError with the set unchanged. |
| `MetricSets.MetricSet.Insert` | python/lsst/verify/metricset.py:293-303 | the metric becomes the entry for its name and all other entries stay; the length grows by one only for a new name. KeyError iff the name is not a metric name. |
| `MetricSets.MetricSet.Update` | python/lsst/verify/metricset.py:381-392 | succeeds iff all of `other`'s names are metric names, and the result is this set overridden by `other`. On failure the error names a bad key of `other`, no old key is lost, and every entry is either the old one or `other`'s. |
| `MetricSets.MetricSet.InPlaceAdd` | python/lsst/verify/metricset.py:271-291 | `update` followed by returning the same object: success iff all of `other`'s names are metric names, with this set overridden by `other`. On failure the same KeyError and the same entry-by-entry description of the partly merged set as `update`. |
| `MetricSets.MetricSet.Subset` | python/lsst/verify/metricset.py:329-379 | a fresh set whose entries are the selection for the package and the set of the given tags |
| `Format.Decimal` | python/lsst/verify/metricset.py:252 | `{count:d}`: at least one digit, all digits, a leading zero only for 0, one digit exactly below 10 |
| `Format.ParseDecimal` | python/lsst/verify/metricset.py:252 | reading the digits back gives the count |
| `Format.DecimalInjective` | python/lsst/verify/metricset.py:252 | different counts are written differently |
| `PpdbMetricTask.GetPpdb` | python/lsst/verify/tasks/ppdbMetricTask.py:65-68 | `None` for no config; for a `PpdbConfig`, the database built from it |
| `PpdbMetricTask.FromConfig` | python/lsst/verify/tasks/ppdbMetricTask.py:67-94 | `_getPpdb` of a present config: a `PpdbConfig` gives its database; another config yields nothing iff none of its fields does. `FromConfigIsFirstCandidate` proves the result is the first database the tree configures. |
| `PpdbMetricTask.SearchFields` | python/lsst/verify/tasks/ppdbMetricTask.py:70-94 | `None` iff no field yields a database. Otherwise the result is that of the first field, in order, that yields one. |
| `PpdbMetricTask.FromField` | python/lsst/verify/tasks/ppdbMetricTask.py:71-93 | an unrecognised field yields nothing |
| `PpdbMetricTask.FromConfigurable` | python/lsst/verify/tasks/ppdbMetricTask.py:113-116 | a configurable whose class is exactly `PpdbConfig` yields `apply()` |
| `PpdbMetricTask.FirstInConfigs` | python/lsst/verify/tasks/ppdbMetricTask.py:133-137 | `None` iff no config yields a database. Otherwise the result is that of the first config, in order, that yields one. |
| `PpdbMetricTask.GetPpdbFromConfigurableField` | python/lsst/verify/tasks/ppdbMetricTask.py:110-116 | `None` for no configurable; `apply()` for class `PpdbConfig`; otherwise `_getPpdb` of its value |
| `PpdbMetricTask.GetPpdbFromConfigIterable` | python/lsst/verify/tasks/ppdbMetricTask.py:132-137 | `None` for no collection or an empty one; otherwise the first match over the elements |
| `PpdbMetricTask.FromConfigIsFirstCandidate` | python/lsst/verify/tasks/ppdbMetricTask.py:65-94 | the search of a config returns the first database of the tree's candidate list, in visiting order |
| `PpdbMetricTask.SearchFieldsIsFirstCandidate` | python/lsst/verify/tasks/ppdbMetricTask.py:70-94 | the same for a config's field list |
| `PpdbMetricTask.FromFieldIsFirstCandidate` | python/lsst/verify/tasks/ppdbMetricTask.py:71-93 | the same for a single field of each recognised kind, and for a skipped one |
| `PpdbMetricTask.FirstInConfigsIsFirstCandidate` | python/lsst/verify/tasks/ppdbMetricTask.py:132-137 | the same for an iterable of configs |
| `PpdbMetricTask.GetPpdbSoundAndComplete` | python/lsst/verify/tasks/ppdbMetricTask.py:50-68 | a returned database is one the tree configures, through a `PpdbConfig` leaf or a `PpdbConfig` configurable, and the first such. `None` is returned iff the tree configures none. |
| `PpdbMetricTask.SearchFieldsInOrder` | python/lsst/verify/tasks/ppdbMetricTask.py:70-94 | later fields are consulted only when all earlier ones yield nothing |
| `PpdbMetricTask.OtherFieldSkipped` | python/lsst/verify/tasks/ppdbMetricTask.py:89-94 | inserting a field of an unrecognised kind anywhere does not change the result |
| `PpdbMetricTask.LoaderRun` | python/lsst/verify/tasks/ppdbMetricTask.py:139-157 | the struct's `ppdb` is the first database the config tree configures, or `None` |
| `PpdbMetricTask.Unwrap` | python/lsst/verify/tasks/ppdbMetricTask.py:320-324 | a list is replaced by its first element (IndexError for an empty list); a non-indexable dataset is used as is |
| `PpdbMetricTask.AdaptArgsAndRun` | python/lsst/verify/tasks/ppdbMetricTask.py:319-335 | KeyError for a missing `"measurement"` output ID, looked up first, or a missing `"dbInfo"` input. With both present, it succeeds iff unwrapping the dataset succeeds, and passes on the IndexError of an empty list. On success there is a measurement iff a database loads and `makeMeasurement` gives one for the output data ID, and it is that measurement with metadata added for that ID. |
| `PpdbMetricTask.NoDatabaseNoMeasurement` | python/lsst/verify/tasks/ppdbMetricTask.py:326-331 | with no database the measurement is `None`, and the hooks do not affect the result |
| `PpdbMetricTask.NoMeasurementNoMetadata` | python/lsst/verify/tasks/ppdbMetricTask.py:332-333 | a `None` measurement stays `None` and `addStandardMetadata` does not affect the result |
| `PpdbMetricTask.InputDataIdsUnused` | python/lsst/verify/tasks/ppdbMetricTask.py:267-335 | the result does not depend on `inputDataIds` |
| `PpdbMetricTask.SingletonListUnwrapped` | python/lsst/verify/tasks/ppdbMetricTask.py:276-280 | a one-element list of datasets behaves as the dataset itself |
| `PpdbMetricTask.Run` | python/lsst/verify/tasks/ppdbMetricTask.py:263-265 | fails (IndexError) iff given an empty list of datasets. Otherwise the first dataset is loaded, and the result is `makeMeasurement` under the empty data ID with metadata for that ID, or `None` when no database or no measurement. |
| `PpdbMetricTask.RunUsesEmptyDataId` | python/lsst/verify/tasks/ppdbMetricTask.py:263-265 | `run(dbInfo)` passes the loaded database and the empty data ID to `makeMeasurement`, and adds metadata for the empty ID |
| `PpdbMetricTask.DefaultLoaderMeasuresFirstCandidate` | python/lsst/verify/tasks/ppdbMetricTask.py:326-329 | with the default loader, the database measured is the first one the config tree configures |

## Left out

- Loading metrics from packages and YAML files (`load_metrics_package`, `load_single_package`, `_load_metrics_yaml`): file-system and YAML I/O.
- The `json` property and `_repr_html_`: they rely on a serialisation mixin and an astropy table that are not part of this model.
- `keys`, `items` and `__iter__`, and dict insertion order in general: the collection is a `map`, so iteration order is not modelled.
- Coercing a string key with `Name(metric=key)` in `__getitem__`, `__setitem__`, `__delitem__` and `__contains__`, and a string package with `Name(package=...)` in `subset`: name parsing belongs to `Name`, which is not part of this model. Keys and packages are `Name` values here.
- `Metric.deserialize`: `Deserialize` takes already-deserialized metrics.
- MetricSets.MetricSet.Update: the order in which `other`'s entries are inserted is not modelled, so when a bad name raises part way through, the state left behind is described entry by entry rather than exactly.
- MetricSets.MetricSet.InPlaceAdd: as for `update`, the state after a part-way KeyError is described entry by entry, not exactly.
- MetricSets.MetricSet.Subset: the selected metrics are stored directly rather than re-inserted through `__init__`. This gives the same map, because the selection keeps the key-equals-name invariant.
- The message texts of the raised exceptions: errors carry their kind and the key or index involved.
- The real `Ppdb` constructor, `ConfigurableInstance.apply()` and the pex_config/pipe_base machinery: uninterpreted constructors and parameters.
- Truthiness of a database handle: the loader's `if result:` is taken to be `result is not None`.
- A multiple-selection choice field's `active` is a list or `None`, and a dict field's values are a list. Elements that are not configs are not modelled.
- `MetricComputationError` raised by `makeMeasurement`, and other errors from the loader: the hooks are total functions, so exceptions that propagate unchanged are not modelled.
- `addStandardMetadata` updates the measurement in place. It is modelled as a function that returns the updated measurement.
- The `Struct` results are the values they carry.
- `python/lsst/validate/drp/validate.py` (catalog I/O, external matching, floating-point statistics, plotting), `python/lsst/verify/metadata/lsstsw.py` (YAML, os.path and Git calls) and `tests/test_apdbMetricTask.py` are not part of this model.
