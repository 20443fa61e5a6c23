/** The rendering dialects and the pair of strings rendered by dialect (ToSqlAndFilter.cs). */
module Rendering {

  /** The dialects the code distinguishes. */
  datatype Syntax = Sql | Filter | SqlKata

  /** A filter string and a SQL string, stored as given. */
  datatype SqlAndFilter = SqlAndFilter(filter: string, sql: string) {

    /** `ToString(syntax)`: the filter string for `Filter`, the SQL string for every other dialect. */
    function ToString(syntax: Syntax): (r: string)
      ensures syntax == Filter ==> r == filter
      ensures syntax != Filter ==> r == sql
      ensures r == filter || r == sql
    {
      if syntax == Filter then filter else sql
    }
  }
}
