/**
 * The already-parsed fixture document (fixture.go:30-52): a table name, its
 * column families, and per family the columns to write, each with a row key,
 * a qualifier-to-value mapping and an optional explicit version.
 */
module FixtureModel {
  import opened Encoding

  /** An instant, counted from Go's zero time (January 1, year 1, UTC). */
  type Time = int

  /** An explicit write timestamp; the zero instant means "not given". */
  datatype Version = Version(time: Time) {
    /**
     * `time.Time.IsZero`: the version is the zero value, the one a column
     * whose `version` field was absent (or named the zero instant) decodes to.
     */
    predicate IsZero()
      ensures IsZero() <==> this == Version(0)
    {
      time == 0
    }
  }

  datatype Columns = Columns(key: string, rows: map<string, Value>, version: Version)

  datatype ColumnFamilies = ColumnFamilies(family: string, columns: seq<Columns>)

  datatype QueryModelWithYaml = QueryModelWithYaml(table: string, columnFamilies: seq<ColumnFamilies>)

  /**
   * The timestamp every cell of a column is written at: an explicit version
   * always wins; the load's `now` stands in only for a missing one.
   */
  function ResolveTime(v: Version, now: Time): (t: Time)
    ensures v != Version(0) ==> t == v.time
    ensures v == Version(0) ==> t == now
  {
    if v.IsZero() then now else v.time
  }
}
