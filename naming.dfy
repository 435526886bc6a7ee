/**
 * The parts of `lsst.verify.Name` and `lsst.verify.Metric` that `MetricSet`
 * relies on.  Both classes live outside the modelled files, so they are
 * abstracted to the fields and predicates the collection actually uses.
 */
module Naming {
  import opened Wrappers

  /**
   * A metric name: an optional package part and an optional metric part.
   * `Name(Some("validate_drp"), Some("PA1"))` is the fully qualified
   * `validate_drp.PA1`; `Name(Some("validate_drp"), None)` names a package.
   */
  datatype Name = Name(package: Option<string>, metric: Option<string>)
  {
    /** `Name.is_metric`: the name has a metric part (specification names are not modelled). */
    predicate IsMetric()
    {
      metric.Some?
    }

    /** `Name.is_package`: a bare package name. */
    predicate IsPackage()
    {
      package.Some? && metric.None?
    }

    /** `this in pkg`: `pkg` is a package name and this name belongs to that package. */
    predicate InPackage(pkg: Name)
    {
      pkg.IsPackage() && package == pkg.package
    }
  }

  /**
   * A metric definition.  Only the name and the tags matter to the collection;
   * the unit, description and reference are folded into `description`, and
   * two metrics are equal exactly when all their fields are.
   */
  datatype Metric = Metric(name: Name, tags: set<string>, description: string)

  /** A Python object passed where a `Metric` is expected: a metric, or anything else. */
  datatype Value = MetricValue(metric: Metric) | NonMetric
}
