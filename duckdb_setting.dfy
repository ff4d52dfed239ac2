/** One row of the settings catalog: a DuckDB option, its value in the selected DSN and its default. */
module DuckDbSettings {

  datatype DuckDbSetting = DuckDbSetting(
    name: string,
    dsn_value: string,
    default_value: string,
    description: string,
    input_type: string,
    scope: string)

  /** The derived default record: every field empty. */
  function DefaultSetting(): (r: DuckDbSetting)
    ensures r.name == [] && r.dsn_value == [] && r.default_value == []
    ensures r.description == [] && r.input_type == [] && r.scope == []
  {
    DuckDbSetting("", "", "", "", "", "")
  }

  /**
    A catalog entry: the second argument is the driver's default for the option, the value the DSN holds
    starts out empty, and the other arguments are kept as given.
  */
  function New(name: string, value: string, input_type: string, scope: string, description: string): (r: DuckDbSetting)
    ensures r.dsn_value == []
    ensures r.default_value == value
    ensures r.name == name && r.input_type == input_type && r.scope == scope && r.description == description
  {
    DuckDbSetting(name, "", value, description, input_type, scope)
  }

  /** Every record with an empty DSN value is what `New` builds from its own fields. */
  lemma NewRoundTrip(s: DuckDbSetting)
    requires s.dsn_value == []
    ensures New(s.name, s.default_value, s.input_type, s.scope, s.description) == s
  {
  }

  /** `New` loses nothing: equal records come only from equal arguments. */
  lemma NewInjective(n1: string, v1: string, i1: string, s1: string, d1: string,
                     n2: string, v2: string, i2: string, s2: string, d2: string)
    requires New(n1, v1, i1, s1, d1) == New(n2, v2, i2, s2, d2)
    ensures n1 == n2 && v1 == v2 && i1 == i2 && s1 == s2 && d1 == d2
  {
  }
}
