/**
 * `lsst.verify.MetricSet`: a mutable collection of metric definitions keyed
 * by metric name.  The collection's invariant is that every key is the name
 * of the metric stored under it.
 */
module MetricSets {
  import opened Wrappers
  import opened Naming
  import Format

  /** The exceptions a `MetricSet` operation raises, with what they concern. */
  datatype Error =
    | NotAMetricName(key: Name)      // KeyError: the key has no metric part
    | NotAMetric(key: Name)          // TypeError: the value stored under `key` is not a Metric
    | InconsistentKey(key: Name)     // KeyError: the value's own name differs from `key`
    | MissingKey(key: Name)          // KeyError: `key` is not in the collection
    | NonMetricArgument(index: nat)  // TypeError: element `index` of the constructor's list is not a Metric
    | NotIterable                    // TypeError: `deserialize` was given no list
  {
    /** The exception class is `KeyError` (otherwise it is `TypeError`). */
    predicate IsKeyError()
    {
      NotAMetricName? || InconsistentKey? || MissingKey?
    }
  }

  /** The collection invariant: each key is the name of the metric it maps to. */
  predicate Consistent(m: map<Name, Metric>)
  {
    forall n :: n in m ==> m[n].name == n
  }

  /**
   * The checks `__setitem__` makes before storing `value` under `key`, in the
   * order it makes them; `None` when all pass.
   */
  function CheckItem(key: Name, value: Value): (r: Option<Error>)
    ensures r.None? <==> key.IsMetric() && value.MetricValue? && value.metric.name == key
    ensures r.Some? ==> (r.value.NotAMetricName? || r.value.NotAMetric? || r.value.InconsistentKey?) && r.value.key == key
    ensures r.Some? ==> (r.value.IsKeyError() <==> !key.IsMetric() || value.MetricValue?)
  {
    if !key.IsMetric() then Some(NotAMetricName(key))
    else if value.NonMetric? then Some(NotAMetric(key))
    else if value.metric.name != key then Some(InconsistentKey(key))
    else None
  }

  /** A successful `__setitem__` keeps the collection invariant. */
  lemma SetItemKeepsConsistent(m: map<Name, Metric>, key: Name, value: Value)
    requires Consistent(m) && CheckItem(key, value).None?
    ensures Consistent(m[key := value.metric])
  {
  }

  /** The names of a list of metrics. */
  function Names(ms: seq<Metric>): set<Name>
  {
    set i | 0 <= i < |ms| :: ms[i].name
  }

  /** `m` after storing each metric of `ms` under its own name, in list order. */
  function Inserted(m: map<Name, Metric>, ms: seq<Metric>): map<Name, Metric>
    decreases |ms|
  {
    if ms == [] then m
    else
      var last := ms[|ms| - 1];
      Inserted(m, ms[..|ms| - 1])[last.name := last]
  }

  /** Inserting a list adds exactly the names of its metrics. */
  lemma {:induction false} InsertedKeys(m: map<Name, Metric>, ms: seq<Metric>)
    ensures Inserted(m, ms).Keys == m.Keys + Names(ms)
    decreases |ms|
  {
    if ms != [] {
      var init := ms[..|ms| - 1];
      InsertedKeys(m, init);
      assert Names(ms) == Names(init) + {ms[|ms| - 1].name} by {
        forall n | n in Names(ms) ensures n in Names(init) + {ms[|ms| - 1].name} {
          var i :| 0 <= i < |ms| && ms[i].name == n;
          if i < |ms| - 1 {
            assert init[i] == ms[i];
          }
        }
        forall n | n in Names(init) ensures n in Names(ms) {
          var i :| 0 <= i < |init| && init[i].name == n;
          assert ms[i] == init[i];
        }
      }
    }
  }

  /** The last metric of a given name in the list is the one stored under that name. */
  lemma {:induction false} InsertedLastWins(m: map<Name, Metric>, ms: seq<Metric>, i: nat)
    requires i < |ms|
    requires forall j :: i < j < |ms| ==> ms[j].name != ms[i].name
    ensures ms[i].name in Inserted(m, ms) && Inserted(m, ms)[ms[i].name] == ms[i]
    decreases |ms|
  {
    if i < |ms| - 1 {
      var init := ms[..|ms| - 1];
      assert init[i] == ms[i];
      forall j | i < j < |init| ensures init[j].name != init[i].name {
        assert init[j] == ms[j];
      }
      InsertedLastWins(m, init, i);
    }
  }

  /** Names not in the list keep what `m` had for them. */
  lemma {:induction false} InsertedUntouched(m: map<Name, Metric>, ms: seq<Metric>, n: Name)
    requires n !in Names(ms)
    ensures n in Inserted(m, ms) <==> n in m
    ensures n in m ==> Inserted(m, ms)[n] == m[n]
    decreases |ms|
  {
    if ms != [] {
      var init := ms[..|ms| - 1];
      assert ms[|ms| - 1].name in Names(ms);
      forall i | 0 <= i < |init| ensures init[i].name != n {
        assert init[i] == ms[i] && ms[i].name in Names(ms);
      }
      InsertedUntouched(m, init, n);
    }
  }

  /** Inserting metrics under their own names keeps the collection invariant. */
  lemma {:induction false} InsertedConsistent(m: map<Name, Metric>, ms: seq<Metric>)
    requires Consistent(m)
    ensures Consistent(Inserted(m, ms))
    decreases |ms|
  {
    if ms != [] {
      InsertedConsistent(m, ms[..|ms| - 1]);
    }
  }

  /** Every element of a constructor argument list is a Metric. */
  predicate AllMetrics(vs: seq<Value>)
  {
    forall i :: 0 <= i < |vs| ==> vs[i].MetricValue?
  }

  /** The metrics of a list whose elements all are Metrics. */
  function MetricsOf(vs: seq<Value>): (ms: seq<Metric>)
    requires AllMetrics(vs)
    ensures |ms| == |vs| && forall i :: 0 <= i < |vs| ==> ms[i] == vs[i].metric
  {
    seq(|vs|, i requires 0 <= i < |vs| => vs[i].metric)
  }

  /** `m` with the entries of `source` whose names are in `done` written over it. */
  function Overridden(m: map<Name, Metric>, source: map<Name, Metric>, done: set<Name>): (r: map<Name, Metric>)
    requires done <= source.Keys
    ensures r.Keys == m.Keys + done
    ensures forall n :: n in r ==> r[n] == if n in done then source[n] else m[n]
  {
    m + (map n | n in done :: source[n])
  }

  /** Writing one more entry of `source` over the result moves its name from the pending ones to the done ones. */
  lemma OverriddenStep(m: map<Name, Metric>, source: map<Name, Metric>, todo: set<Name>, k: Name)
    requires todo <= source.Keys && k in todo
    ensures Overridden(m, source, source.Keys - todo)[k := source[k]] == Overridden(m, source, source.Keys - (todo - {k}))
  {
    assert source.Keys - (todo - {k}) == (source.Keys - todo) + {k};
  }

  /** Writing every entry of `source` over `m` is map override. */
  lemma OverriddenAll(m: map<Name, Metric>, source: map<Name, Metric>)
    ensures Overridden(m, source, source.Keys - {}) == m + source
  {
  }

  /** The tags argument of `subset`, as the set it is turned into. */
  function TagSet(tags: seq<string>): set<string>
  {
    set t | t in tags
  }

  /**
   * The entries `subset` keeps: those whose name belongs to `package`, those
   * whose tags include `tags`, both at once when both are given, and none
   * when neither is.
   */
  function Select(m: map<Name, Metric>, package: Option<Name>, tags: Option<set<string>>): (r: map<Name, Metric>)
    ensures forall n :: n in r ==> n in m && r[n] == m[n]
    ensures Consistent(m) ==> Consistent(r)
  {
    if package.Some? && tags.None? then
      map n | n in m && n.InPackage(package.value) :: m[n]
    else if package.Some? && tags.Some? then
      map n | n in m && n.InPackage(package.value) && tags.value <= m[n].tags :: m[n]
    else if package.None? && tags.Some? then
      map n | n in m && tags.value <= m[n].tags :: m[n]
    else
      map[]
  }

  /** A package alone selects exactly the entries whose name is in the package. */
  lemma SelectByPackage(m: map<Name, Metric>, package: Name, n: Name)
    ensures n in Select(m, Some(package), None) <==> n in m && n.InPackage(package)
  {
  }

  /** Tags alone select exactly the entries whose tags include all of them. */
  lemma SelectByTags(m: map<Name, Metric>, tags: set<string>, n: Name)
    ensures n in Select(m, None, Some(tags)) <==> n in m && tags <= m[n].tags
  {
  }

  /** With both a package and tags, the selection is the intersection of the two single selections. */
  lemma SelectBothIsIntersection(m: map<Name, Metric>, package: Name, tags: set<string>)
    ensures Select(m, Some(package), Some(tags)).Keys
         == Select(m, Some(package), None).Keys * Select(m, None, Some(tags)).Keys
  {
    var both := Select(m, Some(package), Some(tags));
    var byPackage := Select(m, Some(package), None);
    var byTags := Select(m, None, Some(tags));
    forall n | n in byPackage.Keys * byTags.Keys ensures n in both.Keys {
      assert n in m && n.InPackage(package) && tags <= m[n].tags;
    }
  }

  /** An empty tag list is a subset of every metric's tags, so it selects everything. */
  lemma SelectEmptyTags(m: map<Name, Metric>)
    ensures Select(m, None, Some({})) == m
  {
  }

  /** With neither a package nor tags, nothing is selected. */
  lemma SelectNeither(m: map<Name, Metric>)
    ensures Select(m, None, None) == map[]
  {
  }

  /** A subset with as many elements as its superset is the whole superset. */
  lemma {:induction false} SubsetOfSameSize<T>(a: set<T>, b: set<T>)
    requires a <= b && |a| == |b|
    ensures a == b
    decreases |b|
  {
    if a != {} {
      var x :| x in a;
      assert |a - {x}| == |a| - 1 && |b - {x}| == |b| - 1;
      SubsetOfSameSize(a - {x}, b - {x});
      assert a == (a - {x}) + {x} && b == (b - {x}) + {x};
    }
  }

  /** Two maps with the same number of entries, one contained in the other, are equal. */
  lemma SubmapOfSameSize(a: map<Name, Metric>, b: map<Name, Metric>)
    requires forall n :: n in a ==> n in b && a[n] == b[n]
    requires |a| == |b|
    ensures a == b
  {
    SubsetOfSameSize(a.Keys, b.Keys);
  }

  /** `__str__` for a collection of `count` metrics. */
  function Describe(count: nat): (s: string)
    ensures count == 0 ==> s == "<MetricSet: empty>"
    ensures count == 1 ==> s == "<MetricSet: 1 Metric>"
    ensures count > 1 ==> s == "<MetricSet: " + Format.Decimal(count) + " Metrics>"
  {
    var countText :=
      if count == 0 then "empty"
      else if count == 1 then "1 Metric"
      else Format.Decimal(count) + " Metrics";
    "<MetricSet: " + countText + ">"
  }

  /** The string tells the number of metrics: different counts are described differently. */
  lemma DescribeInjective(a: nat, b: nat)
    ensures Describe(a) == Describe(b) ==> a == b
  {
    if a > 1 && b > 1 && Describe(a) == Describe(b) {
      var s := Describe(a);
      assert s[12..|s| - 9] == Format.Decimal(a);
      assert s[12..|s| - 9] == Format.Decimal(b);
      Format.DecimalInjective(a, b);
    }
    assert a > 1 ==> |Describe(a)| >= 22;
    assert b > 1 ==> |Describe(b)| >= 22;
  }

  class MetricSet {
    /** `self._metrics`: the stored metrics by name. */
    var metrics: map<Name, Metric>

    ghost predicate Valid()
      reads this
    {
      Consistent(metrics)
    }

    /** `MetricSet()`: an empty collection. */
    constructor Empty()
      ensures Valid() && metrics == map[]
    {
      metrics := map[];
    }

    /**
     * `MetricSet(metrics)`: stores each element under its own name, in list
     * order, and raises TypeError at the first element that is not a Metric.
     */
    static method New(items: Option<seq<Value>>) returns (r: Result<MetricSet, Error>)
      ensures r.Failure? <==> items.Some? && !AllMetrics(items.value)
      ensures r.Failure? ==> r.error.NonMetricArgument?
      ensures r.Failure? && r.error.NonMetricArgument? ==>
        var i := r.error.index;
        i < |items.value| && items.value[i].NonMetric? && forall j :: 0 <= j < i ==> items.value[j].MetricValue?
      ensures r.Success? ==> fresh(r.value) && r.value.Valid()
      ensures r.Success? && items.None? ==> r.value.metrics == map[]
      ensures r.Success? && items.Some? ==> r.value.metrics == Inserted(map[], MetricsOf(items.value))
    {
      var s := new MetricSet.Empty();
      if items.None? {
        return Success(s);
      }
      var vs := items.value;
      var i := 0;
      while i < |vs|
        invariant 0 <= i <= |vs|
        invariant AllMetrics(vs[..i])
        invariant s.metrics == Inserted(map[], MetricsOf(vs[..i]))
        invariant fresh(s)
      {
        if vs[i].NonMetric? {
          return Failure(NonMetricArgument(i));
        }
        var metric := vs[i].metric;
        assert MetricsOf(vs[..i + 1]) == MetricsOf(vs[..i]) + [metric];
        s.metrics := s.metrics[metric.name := metric];
        i := i + 1;
      }
      assert vs[..i] == vs;
      InsertedConsistent(map[], MetricsOf(vs));
      return Success(s);
    }

    /**
     * `MetricSet.deserialize(metrics)` over already-deserialized metrics:
     * inserts them in list order, so a later metric of the same name wins.
     */
    static method Deserialize(docs: Option<seq<Metric>>) returns (r: Result<MetricSet, Error>)
      ensures r.Failure? <==> docs.None? || exists i :: 0 <= i < |docs.value| && !docs.value[i].name.IsMetric()
      ensures r.Failure? && docs.None? ==> r.error == NotIterable
      ensures r.Failure? && docs.Some? ==>
        exists i :: 0 <= i < |docs.value| && r.error == NotAMetricName(docs.value[i].name)
          && !docs.value[i].name.IsMetric()
          && forall j :: 0 <= j < i ==> docs.value[j].name.IsMetric()
      ensures r.Success? ==> fresh(r.value) && r.value.Valid() && r.value.metrics == Inserted(map[], docs.value)
    {
      if docs.None? {
        return Failure(NotIterable);
      }
      var ms := docs.value;
      var s := new MetricSet.Empty();
      var i := 0;
      while i < |ms|
        invariant 0 <= i <= |ms|
        invariant forall j :: 0 <= j < i ==> ms[j].name.IsMetric()
        invariant s.Valid() && s.metrics == Inserted(map[], ms[..i])
        invariant fresh(s)
      {
        var err := s.Insert(ms[i]);
        if err.Some? {
          return Failure(err.value);
        }
        assert ms[..i + 1][..i] == ms[..i];
        i := i + 1;
      }
      assert ms[..i] == ms;
      return Success(s);
    }

    /** `__getitem__`: the metric stored under `key`, or KeyError. */
    function Get(key: Name): (r: Result<Metric, Error>)
      reads this
      requires Valid()
      ensures r.Success? <==> key in metrics
      ensures r.Success? ==> r.value == metrics[key] && r.value.name == key
      ensures r.Failure? ==> r.error == MissingKey(key) && r.error.IsKeyError()
    {
      if key in metrics then Success(metrics[key]) else Failure(MissingKey(key))
    }

    /** `__contains__`: exactly the keys `__getitem__` succeeds on. */
    function Contains(key: Name): (r: bool)
      reads this
      requires Valid()
      ensures r <==> Get(key).Success?
    {
      key in metrics
    }

    /** `__len__`. */
    function Length(): (r: nat)
      reads this
      ensures r == 0 <==> metrics == map[]
    {
      |metrics|
    }

    /** `__str__`: the text says whether the set is empty, holds one metric, or how many it holds. */
    function ToString(): (s: string)
      reads this
      ensures s == "<MetricSet: empty>" <==> metrics == map[]
      ensures s == "<MetricSet: 1 Metric>" <==> |metrics| == 1
      ensures s == Describe(|metrics|)
    {
      DescribeInjective(|metrics|, 0);
      DescribeInjective(|metrics|, 1);
      Describe(Length())
    }

    /** `__eq__`: same size, and every name of this set maps to an equal metric in `other`. */
    function Equals(other: MetricSet): (r: bool)
      reads this, other
      ensures r <==> metrics == other.metrics
    {
      var sameSize := |metrics| == |other.metrics|;
      var allFound := forall n :: n in metrics ==> n in other.metrics && metrics[n] == other.metrics[n];
      if sameSize && allFound then
        SubmapOfSameSize(metrics, other.metrics);
        true
      else
        false
    }

    /** `__ne__`: the negation of `__eq__`. */
    function NotEquals(other: MetricSet): (r: bool)
      reads this, other
      ensures r <==> metrics != other.metrics
    {
      !Equals(other)
    }

    /**
     * `__setitem__`: stores `value` under `key` after checking that the key
     * is a metric name, the value a Metric, and the value's name the key.
     * A failed check raises and leaves the collection as it was.
     */
    method SetItem(key: Name, value: Value) returns (err: Option<Error>)
      requires Valid()
      modifies this
      ensures Valid()
      ensures err == CheckItem(key, value)
      ensures err.None? ==> metrics == old(metrics)[key := value.metric]
      ensures err.Some? ==> metrics == old(metrics)
    {
      if !key.IsMetric() {
        return Some(NotAMetricName(key));
      }
      if value.NonMetric? {
        return Some(NotAMetric(key));
      }
      if value.metric.name != key {
        return Some(InconsistentKey(key));
      }
      metrics := metrics[key := value.metric];
      return None;
    }

    /** `__delitem__`: removes exactly `key`, or raises KeyError if it is absent. */
    method Delete(key: Name) returns (err: Option<Error>)
      requires Valid()
      modifies this
      ensures Valid()
      ensures err.None? <==> key in old(metrics)
      ensures err.None? ==> metrics == old(metrics) - {key} && |metrics| == |old(metrics)| - 1
      ensures err.Some? ==> err.value == MissingKey(key) && metrics == old(metrics)
    {
      if key !in metrics {
        return Some(MissingKey(key));
      }
      metrics := metrics - {key};
      return None;
    }

    /**
     * `insert`: `metric` becomes the entry for its name, replacing any
     * earlier one; raises KeyError when the name is not a metric name.
     */
    method Insert(metric: Metric) returns (err: Option<Error>)
      requires Valid()
      modifies this
      ensures Valid()
      ensures err.Some? <==> !metric.name.IsMetric()
      ensures err.Some? ==> err.value == NotAMetricName(metric.name) && metrics == old(metrics)
      ensures err.None? ==> metrics == old(metrics)[metric.name := metric]
      ensures err.None? ==> |metrics| == if metric.name in old(metrics) then |old(metrics)| else |old(metrics)| + 1
    {
      err := SetItem(metric.name, MetricValue(metric));
    }

    /**
     * `update`: inserts every metric of `other`.  When all of `other`'s names
     * are metric names the result is this set overridden by `other`.
     * Otherwise `insert` raises KeyError at the first bad name reached; the
     * order of `other`'s entries is not modelled, so the state left behind is
     * described only entry by entry.
     */
    method Update(other: MetricSet) returns (err: Option<Error>)
      requires Valid() && other.Valid()
      modifies this
      ensures Valid()
      ensures err.None? <==> forall n :: n in old(other.metrics) ==> n.IsMetric()
      ensures err.None? ==> metrics == old(metrics) + old(other.metrics)
      ensures err.Some? ==> err.value.NotAMetricName? && err.value.key in old(other.metrics) && !err.value.key.IsMetric()
      ensures err.Some? ==> old(metrics).Keys <= metrics.Keys
      ensures err.Some? ==> forall n :: n in metrics ==>
        (n in old(other.metrics) && metrics[n] == old(other.metrics)[n])
        || (n in old(metrics) && metrics[n] == old(metrics)[n])
    {
      var source := other.metrics;
      var todo := source.Keys;
      assert Consistent(source);
      while todo != {}
        invariant todo <= source.Keys
        invariant Valid()
        invariant forall n :: n in source.Keys - todo ==> n.IsMetric()
        invariant metrics == Overridden(old(metrics), source, source.Keys - todo)
        decreases todo
      {
        var k :| k in todo;
        err := Insert(source[k]);
        if err.Some? {
          return;
        }
        OverriddenStep(old(metrics), source, todo, k);
        todo := todo - {k};
      }
      OverriddenAll(old(metrics), source);
      return None;
    }

    /** `__iadd__`: `update`, then the set itself as the result. */
    method InPlaceAdd(other: MetricSet) returns (r: Result<MetricSet, Error>)
      requires Valid() && other.Valid()
      modifies this
      ensures Valid()
      ensures r.Success? <==> forall n :: n in old(other.metrics) ==> n.IsMetric()
      ensures r.Success? ==> r.value == this && metrics == old(metrics) + old(other.metrics)
      ensures r.Failure? ==> r.error.NotAMetricName? && r.error.key in old(other.metrics) && !r.error.key.IsMetric()
      ensures r.Failure? ==> old(metrics).Keys <= metrics.Keys
      ensures r.Failure? ==> forall n :: n in metrics ==>
        (n in old(other.metrics) && metrics[n] == old(other.metrics)[n])
        || (n in old(metrics) && metrics[n] == old(metrics)[n])
    {
      var err := Update(other);
      if err.Some? {
        return Failure(err.value);
      }
      return Success(this);
    }

    /** `subset`: a new set holding the entries `Select` keeps. */
    method Subset(package: Option<Name>, tags: Option<seq<string>>) returns (s: MetricSet)
      requires Valid()
      ensures fresh(s) && s.Valid()
      ensures s.metrics == Select(metrics, package, if tags.None? then None else Some(TagSet(tags.value)))
    {
      var tagSet := if tags.None? then None else Some(TagSet(tags.value));
      s := new MetricSet.Empty();
      s.metrics := Select(metrics, package, tagSet);
    }
  }

  /** `__eq__` is reflexive and `__ne__` is its negation. */
  lemma EqualsReflexive(s: MetricSet)
    ensures s.Equals(s) && !s.NotEquals(s)
  {
  }
}
