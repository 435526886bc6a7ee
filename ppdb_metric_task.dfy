/**
 * `ConfigPpdbLoader` and `PpdbMetricTask`: finding the prompt products
 * database configured somewhere inside a science task's config tree, and
 * handing it to a metric's measurement hook.
 *
 * The config tree is a datatype with one variant per kind of value the
 * loader tells apart; the database constructors and the task hooks are
 * left uninterpreted (datatype constructors and function parameters).
 */
module PpdbMetricTask {
  import opened Wrappers

  /** The settings of a `PpdbConfig`; what they mean is up to the database layer. */
  datatype PpdbConfig = PpdbConfig(settings: string)

  /** The `ConfigClass` of a configurable field: exactly `PpdbConfig`, or some other class. */
  datatype ConfigClass = PpdbConfigClass | OtherConfigClass(className: string)

  /** A `ConfigurableInstance`: its config class, the task it retargets to, and its current config. */
  datatype Configurable = Configurable(configClass: ConfigClass, target: string, value: Config)

  /** A config object. */
  datatype Config =
    | PpdbLeaf(ppdb: PpdbConfig)  // an instance of `PpdbConfig` or of a subclass
    | Plain(fields: seq<Field>)   // any other `Config`: its field values, in field order

  /** The value of one field of a `Config`, by the kinds the loader recognises. */
  datatype Field =
    | ConfigurableField(configurable: Configurable)  // a `ConfigurableInstance`
    | SingleChoice(active: Option<Config>)           // a `ConfigChoiceField` whose `names` raises
    | MultiChoice(activeList: ConfigList)            // a `ConfigChoiceField` with several selections
    | DictField(values: seq<Config>)                 // a `ConfigDictField`, values in order
    | ConfigField(config: Config)                    // a value that is itself a `Config`
    | OtherField                                     // anything else; the search skips it

  /** An iterable of configs, or `None` (a multiple-selection choice field with nothing selected). */
  datatype ConfigList = NoConfigs | Configs(items: seq<Config>)

  /** A database handle: `Ppdb(config)`, or what `apply()` makes of a configurable's target and config. */
  datatype Db = Ppdb(config: PpdbConfig) | Applied(target: string, value: Config)

  /** The first element of a sequence, if there is one. */
  function First(s: seq<Db>): (r: Option<Db>)
    ensures r.None? <==> s == []
    ensures r.Some? ==> r.value == s[0]
  {
    if s == [] then None else Some(s[0])
  }

  // ---------------------------------------------------------------------
  // Reference definition: every database the config tree can yield, in the
  // order the loader visits the fields.  A `PpdbConfig` leaf contributes
  // `Ppdb(leaf)`, a configurable whose class is `PpdbConfig` contributes
  // `apply()` and is not looked into; every other recognised field is looked
  // into, and unrecognised fields contribute nothing.
  // ---------------------------------------------------------------------

  function ConfigCandidates(c: Config): seq<Db>
    decreases c
  {
    match c
    case PpdbLeaf(p) => [Ppdb(p)]
    case Plain(fields) => FieldsCandidates(fields)
  }

  function FieldsCandidates(fields: seq<Field>): seq<Db>
    decreases fields
  {
    if fields == [] then [] else FieldCandidates(fields[0]) + FieldsCandidates(fields[1..])
  }

  function FieldCandidates(f: Field): seq<Db>
    decreases f
  {
    match f
    case ConfigurableField(c) => ConfigurableCandidates(c)
    case SingleChoice(active) => if active.None? then [] else ConfigCandidates(active.value)
    case MultiChoice(activeList) => if activeList.NoConfigs? then [] else ConfigsCandidates(activeList.items)
    case DictField(values) => ConfigsCandidates(values)
    case ConfigField(c) => ConfigCandidates(c)
    case OtherField => []
  }

  function ConfigurableCandidates(c: Configurable): seq<Db>
    decreases c
  {
    if c.configClass == PpdbConfigClass then [Applied(c.target, c.value)] else ConfigCandidates(c.value)
  }

  function ConfigsCandidates(cs: seq<Config>): seq<Db>
    decreases cs
  {
    if cs == [] then [] else ConfigCandidates(cs[0]) + ConfigsCandidates(cs[1..])
  }

  // ---------------------------------------------------------------------
  // The search, as `ConfigPpdbLoader` runs it: depth first over the fields,
  // returning at the first field that yields a database.
  // ---------------------------------------------------------------------

  /**
   * `_getPpdb` on a config that is present: a `PpdbConfig` is turned into its
   * database and not searched further; any other config is searched field by
   * field, and yields nothing exactly when none of its fields does.
   */
  function FromConfig(c: Config): (r: Option<Db>)
    ensures c.PpdbLeaf? ==> r == Some(Ppdb(c.ppdb))
    ensures c.Plain? ==> (r.None? <==> forall i :: 0 <= i < |c.fields| ==> FromField(c.fields[i]).None?)
    decreases c
  {
    match c
    case PpdbLeaf(p) => Some(Ppdb(p))
    case Plain(fields) => SearchFields(fields)
  }

  /** The `for field in config.values()` loop of `_getPpdb`: the first field that yields a database. */
  function SearchFields(fields: seq<Field>): (r: Option<Db>)
    ensures r.None? <==> forall i :: 0 <= i < |fields| ==> FromField(fields[i]).None?
    ensures r.Some? ==> exists i :: (0 <= i < |fields| && FromField(fields[i]) == r
      && forall j :: 0 <= j < i ==> FromField(fields[j]).None?)
    decreases fields
  {
    if fields == [] then None
    else
      var result := FromField(fields[0]);
      if result.Some? then result
      else
        var rest := SearchFields(fields[1..]);
        assert forall i :: 1 <= i < |fields| ==> fields[i] == fields[1..][i - 1];
        rest
  }

  /** One iteration of that loop: dispatch on the kind of field. */
  function FromField(f: Field): (r: Option<Db>)
    ensures f.OtherField? ==> r.None?
    decreases f
  {
    match f
    case ConfigurableField(c) => FromConfigurable(c)
    case SingleChoice(active) => GetPpdb(active)
    case MultiChoice(activeList) => GetPpdbFromConfigIterable(activeList)
    case DictField(values) => FirstInConfigs(values)
    case ConfigField(c) => FromConfig(c)
    case OtherField => None
  }

  /** `_getPpdbFromConfigurableField` on a configurable that is present. */
  function FromConfigurable(c: Configurable): (r: Option<Db>)
    ensures c.configClass == PpdbConfigClass ==> r == Some(Applied(c.target, c.value))
    decreases c
  {
    if c.configClass == PpdbConfigClass then Some(Applied(c.target, c.value)) else FromConfig(c.value)
  }

  /** The loop of `_getPpdbFromConfigIterable`: the first config that yields a database. */
  function FirstInConfigs(cs: seq<Config>): (r: Option<Db>)
    ensures r.None? <==> forall i :: 0 <= i < |cs| ==> FromConfig(cs[i]).None?
    ensures r.Some? ==> exists i :: (0 <= i < |cs| && FromConfig(cs[i]) == r
      && forall j :: 0 <= j < i ==> FromConfig(cs[j]).None?)
    decreases cs
  {
    if cs == [] then None
    else
      var result := FromConfig(cs[0]);
      if result.Some? then result
      else
        var rest := FirstInConfigs(cs[1..]);
        assert forall i :: 1 <= i < |cs| ==> cs[i] == cs[1..][i - 1];
        rest
  }

  /** `_getPpdb`: `None` for no config, the leaf's database for a `PpdbConfig`, else the field search. */
  function GetPpdb(config: Option<Config>): (r: Option<Db>)
    ensures config.None? ==> r.None?
    ensures config.Some? && config.value.PpdbLeaf? ==> r == Some(Ppdb(config.value.ppdb))
    decreases config
  {
    match config
    case None => None
    case Some(c) => FromConfig(c)
  }

  /** `_getPpdbFromConfigurableField`: `None` for no configurable. */
  function GetPpdbFromConfigurableField(configurable: Option<Configurable>): (r: Option<Db>)
    ensures configurable.None? ==> r.None?
    ensures configurable.Some? && configurable.value.configClass == PpdbConfigClass
      ==> r == Some(Applied(configurable.value.target, configurable.value.value))
    ensures configurable.Some? && configurable.value.configClass != PpdbConfigClass
      ==> r == GetPpdb(Some(configurable.value.value))
  {
    match configurable
    case None => None
    case Some(c) => FromConfigurable(c)
  }

  /** `_getPpdbFromConfigIterable`: `None` for no collection or an empty one, else the first match. */
  function GetPpdbFromConfigIterable(configs: ConfigList): (r: Option<Db>)
    ensures configs.NoConfigs? || configs.items == [] ==> r.None?
    ensures configs.Configs? ==> r == FirstInConfigs(configs.items)
    decreases configs
  {
    if configs.Configs? && configs.items != [] then FirstInConfigs(configs.items) else None
  }

  // ---------------------------------------------------------------------
  // The search finds the first candidate.
  // ---------------------------------------------------------------------

  lemma FirstOfConcat(a: seq<Db>, b: seq<Db>)
    ensures First(a + b) == if a != [] then First(a) else First(b)
  {
    if a != [] {
      assert (a + b)[0] == a[0];
    } else {
      assert a + b == b;
    }
  }

  /** The search over a config returns the first database of its candidate list. */
  lemma {:induction false} FromConfigIsFirstCandidate(c: Config)
    ensures FromConfig(c) == First(ConfigCandidates(c))
    decreases c
  {
    match c
    case PpdbLeaf(p) =>
    case Plain(fields) => SearchFieldsIsFirstCandidate(fields);
  }

  lemma {:induction false} SearchFieldsIsFirstCandidate(fields: seq<Field>)
    ensures SearchFields(fields) == First(FieldsCandidates(fields))
    decreases fields
  {
    if fields != [] {
      FromFieldIsFirstCandidate(fields[0]);
      SearchFieldsIsFirstCandidate(fields[1..]);
      FirstOfConcat(FieldCandidates(fields[0]), FieldsCandidates(fields[1..]));
    }
  }

  lemma {:induction false} FromFieldIsFirstCandidate(f: Field)
    ensures FromField(f) == First(FieldCandidates(f))
    decreases f
  {
    match f
    case ConfigurableField(c) =>
      if c.configClass != PpdbConfigClass {
        FromConfigIsFirstCandidate(c.value);
      }
    case SingleChoice(active) =>
      if active.Some? {
        FromConfigIsFirstCandidate(active.value);
      }
    case MultiChoice(activeList) =>
      if activeList.Configs? {
        FirstInConfigsIsFirstCandidate(activeList.items);
      }
    case DictField(values) => FirstInConfigsIsFirstCandidate(values);
    case ConfigField(c) => FromConfigIsFirstCandidate(c);
    case OtherField =>
  }

  lemma {:induction false} FirstInConfigsIsFirstCandidate(cs: seq<Config>)
    ensures FirstInConfigs(cs) == First(ConfigsCandidates(cs))
    decreases cs
  {
    if cs != [] {
      FromConfigIsFirstCandidate(cs[0]);
      FirstInConfigsIsFirstCandidate(cs[1..]);
      FirstOfConcat(ConfigCandidates(cs[0]), ConfigsCandidates(cs[1..]));
    }
  }

  /**
   * Soundness and completeness of `_getPpdb`: a database it returns is one
   * the tree configures (the first in visiting order), and it returns `None`
   * exactly when the tree configures none.
   */
  lemma GetPpdbSoundAndComplete(config: Option<Config>)
    ensures var candidates := if config.None? then [] else ConfigCandidates(config.value);
      && (GetPpdb(config).Some? ==> GetPpdb(config).value in candidates && GetPpdb(config).value == candidates[0])
      && (GetPpdb(config).None? <==> candidates == [])
  {
    if config.Some? {
      FromConfigIsFirstCandidate(config.value);
    }
  }

  /** The field loop looks at fields in order: a later field counts only when all earlier ones yield nothing. */
  lemma {:induction false} SearchFieldsInOrder(before: seq<Field>, after: seq<Field>)
    ensures SearchFields(before + after) == if SearchFields(before).Some? then SearchFields(before) else SearchFields(after)
    decreases |before|
  {
    if before != [] {
      assert (before + after)[0] == before[0];
      assert (before + after)[1..] == before[1..] + after;
      SearchFieldsInOrder(before[1..], after);
    } else {
      assert before + after == after;
    }
  }

  /** A field of an unrecognised kind does not change the outcome of the search. */
  lemma OtherFieldSkipped(before: seq<Field>, after: seq<Field>)
    ensures SearchFields(before + [OtherField] + after) == SearchFields(before + after)
  {
    SearchFieldsInOrder(before, [OtherField] + after);
    SearchFieldsInOrder(before, after);
    assert ([OtherField] + after)[1..] == after;
    assert before + [OtherField] + after == before + ([OtherField] + after);
  }

  // ---------------------------------------------------------------------
  // `ConfigPpdbLoader.run` and `PpdbMetricTask`.
  // ---------------------------------------------------------------------

  /** The struct `ConfigPpdbLoader.run` returns. */
  datatype LoaderResult = LoaderResult(ppdb: Option<Db>)

  /** `ConfigPpdbLoader.run`: the database the config tree configures first, if any. */
  function LoaderRun(config: Option<Config>): (r: LoaderResult)
    ensures r.ppdb == First(if config.None? then [] else ConfigCandidates(config.value))
  {
    GetPpdbSoundAndComplete(config);
    LoaderResult(GetPpdb(config))
  }

  /** A data ID: dimension names to values. The empty one stands for the whole dataset. */
  type DataId = map<string, string>

  /** The `"dbInfo"` input: a dataset, or a list of datasets of which only the first is used. */
  datatype DbInfo<D> = Dataset(dataset: D) | DatasetList(datasets: seq<D>)

  /** The exceptions `adaptArgsAndRun` raises itself. */
  datatype TaskError =
    | MissingEntry(key: string)  // KeyError from `outputDataId["measurement"]` or `inputData["dbInfo"]`
    | EmptyList                  // IndexError from `dbInfo[0]` on an empty list

  /** `dbInfo[0]`, falling back to `dbInfo` itself for a value that cannot be indexed. */
  function Unwrap<D>(info: DbInfo<D>): (r: Result<D, TaskError>)
    ensures info.Dataset? ==> r == Success(info.dataset)
    ensures info.DatasetList? ==> (r.Failure? <==> info.datasets == [])
    ensures info.DatasetList? && r.Success? ==> r.value == info.datasets[0]
  {
    match info
    case Dataset(d) => Success(d)
    case DatasetList(ds) => if ds == [] then Failure(EmptyList) else Success(ds[0])
  }

  /**
   * `adaptArgsAndRun`, given the task's collaborators: `loadDb` stands for
   * `self.dbLoader.run(dbInfo).ppdb`, `makeMeasurement` for the subclass's
   * hook, `addMetadata` for `addStandardMetadata`.
   */
  function AdaptArgsAndRun<D, M>(
    inputData: map<string, DbInfo<D>>, inputDataIds: map<string, DataId>, outputDataId: map<string, DataId>,
    loadDb: D -> Option<Db>, makeMeasurement: (Db, DataId) -> Option<M>, addMetadata: (M, DataId) -> M)
    : (r: Result<Option<M>, TaskError>)
    ensures "measurement" !in outputDataId ==> r == Failure(MissingEntry("measurement"))
    ensures "measurement" in outputDataId && "dbInfo" !in inputData ==> r == Failure(MissingEntry("dbInfo"))
    ensures "measurement" in outputDataId && "dbInfo" in inputData ==>
      (r.Success? <==> Unwrap(inputData["dbInfo"]).Success?)
      && (Unwrap(inputData["dbInfo"]).Failure? ==> r == Failure(EmptyList))
    ensures r.Success? ==> "measurement" in outputDataId && "dbInfo" in inputData && Unwrap(inputData["dbInfo"]).Success?
    ensures r.Success? ==>
      var dataId := outputDataId["measurement"];
      var db := loadDb(Unwrap(inputData["dbInfo"]).value);
      (r.value.Some? <==> db.Some? && makeMeasurement(db.value, dataId).Some?)
    ensures r.Success? && r.value.Some? ==>
      var dataId := outputDataId["measurement"];
      var db := loadDb(Unwrap(inputData["dbInfo"]).value);
      db.Some? && makeMeasurement(db.value, dataId).Some?
      && r.value == Some(addMetadata(makeMeasurement(db.value, dataId).value, dataId))
  {
    if "measurement" !in outputDataId then Failure(MissingEntry("measurement"))
    else
      var dataId := outputDataId["measurement"];
      if "dbInfo" !in inputData then Failure(MissingEntry("dbInfo"))
      else
        match Unwrap(inputData["dbInfo"])
        case Failure(e) => Failure(e)
        case Success(dbInfo) =>
          var db := loadDb(dbInfo);
          var measurement := if db.Some? then makeMeasurement(db.value, dataId) else None;
          if measurement.Some? then Success(Some(addMetadata(measurement.value, dataId)))
          else Success(None)
  }

  /**
   * `PpdbMetricTask.run`: the whole database, measured under an empty data ID.
   * It fails only for an empty list of datasets; otherwise the first dataset
   * is loaded and measured, with metadata for the empty data ID.
   */
  function Run<D, M>(
    dbInfo: DbInfo<D>,
    loadDb: D -> Option<Db>, makeMeasurement: (Db, DataId) -> Option<M>, addMetadata: (M, DataId) -> M)
    : (r: Result<Option<M>, TaskError>)
    ensures r.Failure? <==> dbInfo == DatasetList([])
    ensures r.Failure? ==> r.error == EmptyList
    ensures r.Success? ==>
      var db := loadDb(Unwrap(dbInfo).value);
      r.value == (if db.None? || makeMeasurement(db.value, map[]).None? then None
                  else Some(addMetadata(makeMeasurement(db.value, map[]).value, map[])))
  {
    AdaptArgsAndRun(map["dbInfo" := dbInfo], map["dbInfo" := map[]], map["measurement" := map[]],
      loadDb, makeMeasurement, addMetadata)
  }

  /** Without a database there is no measurement, whatever the hooks would do: `makeMeasurement` is not consulted. */
  lemma NoDatabaseNoMeasurement<D, M>(
    inputData: map<string, DbInfo<D>>, inputDataIds: map<string, DataId>, outputDataId: map<string, DataId>,
    loadDb: D -> Option<Db>,
    make1: (Db, DataId) -> Option<M>, add1: (M, DataId) -> M,
    make2: (Db, DataId) -> Option<M>, add2: (M, DataId) -> M)
    requires "measurement" in outputDataId && "dbInfo" in inputData
    requires Unwrap(inputData["dbInfo"]).Success? && loadDb(Unwrap(inputData["dbInfo"]).value).None?
    ensures AdaptArgsAndRun(inputData, inputDataIds, outputDataId, loadDb, make1, add1) == Success(None)
    ensures AdaptArgsAndRun(inputData, inputDataIds, outputDataId, loadDb, make1, add1)
         == AdaptArgsAndRun(inputData, inputDataIds, outputDataId, loadDb, make2, add2)
  {
  }

  /** An empty measurement gets no metadata: `addStandardMetadata` is consulted only for a real one. */
  lemma NoMeasurementNoMetadata<D, M>(
    inputData: map<string, DbInfo<D>>, inputDataIds: map<string, DataId>, outputDataId: map<string, DataId>,
    loadDb: D -> Option<Db>, makeMeasurement: (Db, DataId) -> Option<M>,
    add1: (M, DataId) -> M, add2: (M, DataId) -> M)
    requires "measurement" in outputDataId && "dbInfo" in inputData && Unwrap(inputData["dbInfo"]).Success?
    requires var db := loadDb(Unwrap(inputData["dbInfo"]).value);
      db.Some? && makeMeasurement(db.value, outputDataId["measurement"]).None?
    ensures AdaptArgsAndRun(inputData, inputDataIds, outputDataId, loadDb, makeMeasurement, add1) == Success(None)
    ensures AdaptArgsAndRun(inputData, inputDataIds, outputDataId, loadDb, makeMeasurement, add1)
         == AdaptArgsAndRun(inputData, inputDataIds, outputDataId, loadDb, makeMeasurement, add2)
  {
  }

  /** The input data IDs are accepted but never read. */
  lemma InputDataIdsUnused<D, M>(
    inputData: map<string, DbInfo<D>>, ids1: map<string, DataId>, ids2: map<string, DataId>, outputDataId: map<string, DataId>,
    loadDb: D -> Option<Db>, makeMeasurement: (Db, DataId) -> Option<M>, addMetadata: (M, DataId) -> M)
    ensures AdaptArgsAndRun(inputData, ids1, outputDataId, loadDb, makeMeasurement, addMetadata)
         == AdaptArgsAndRun(inputData, ids2, outputDataId, loadDb, makeMeasurement, addMetadata)
  {
  }

  /** A one-element list is treated as its element, as the compatibility path promises. */
  lemma SingletonListUnwrapped<D, M>(
    dataset: D, inputDataIds: map<string, DataId>, outputDataId: map<string, DataId>,
    loadDb: D -> Option<Db>, makeMeasurement: (Db, DataId) -> Option<M>, addMetadata: (M, DataId) -> M)
    ensures AdaptArgsAndRun(map["dbInfo" := DatasetList([dataset])], inputDataIds, outputDataId, loadDb, makeMeasurement, addMetadata)
         == AdaptArgsAndRun(map["dbInfo" := Dataset(dataset)], inputDataIds, outputDataId, loadDb, makeMeasurement, addMetadata)
  {
  }

  /**
   * `run(dbInfo)` measures the whole database: a database that loads is
   * passed to `makeMeasurement` with the empty data ID, and the measurement
   * carries metadata for that same empty data ID.
   */
  lemma RunUsesEmptyDataId<D, M>(
    dataset: D, loadDb: D -> Option<Db>, makeMeasurement: (Db, DataId) -> Option<M>, addMetadata: (M, DataId) -> M)
    ensures var db := loadDb(dataset);
      Run(Dataset(dataset), loadDb, makeMeasurement, addMetadata)
      == Success(if db.None? || makeMeasurement(db.value, map[]).None? then None
                 else Some(addMetadata(makeMeasurement(db.value, map[]).value, map[])))
  {
  }

  /** With the default `dbLoader`, the task measures the database its config tree configures first. */
  lemma DefaultLoaderMeasuresFirstCandidate<M>(
    config: Config, dataId: DataId, makeMeasurement: (Db, DataId) -> Option<M>, addMetadata: (M, DataId) -> M)
    requires ConfigCandidates(config) != []
    ensures AdaptArgsAndRun(map["dbInfo" := Dataset(Some(config))], map[], map["measurement" := dataId],
              (c: Option<Config>) => LoaderRun(c).ppdb, makeMeasurement, addMetadata)
         == Success(var m := makeMeasurement(ConfigCandidates(config)[0], dataId);
                    if m.None? then None else Some(addMetadata(m.value, dataId)))
  {
    assert LoaderRun(Some(config)).ppdb == Some(ConfigCandidates(config)[0]);
  }
}
