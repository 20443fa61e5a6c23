/** The attribute that declares an operator's keyword, SQL spelling, kind and templates (OperatorAttribute.cs). */
module OperatorAttributes {

  import opened Wrappers
  import opened OperatorTypes

  /** All fields are read-only; a template left unset by a constructor is `None` (C# null). */
  datatype OperatorAttribute = OperatorAttribute(
    operatorType: OperatorType,
    filter: string,
    sql: string,
    filterTemplate: string,
    sqlTemplate: string,
    overloadFilterTemplate: Option<string>,
    overloadSqlTemplate: Option<string>)

  /** The three-argument constructor: the templates are the keyword and the spelling themselves. */
  function Attribute3(operatorType: OperatorType, filter: string, sql: string): (a: OperatorAttribute)
    ensures a.operatorType == operatorType && a.filter == filter && a.sql == sql
    ensures a.filterTemplate == filter && a.sqlTemplate == sql
    ensures a.overloadFilterTemplate.None? && a.overloadSqlTemplate.None?
  {
    OperatorAttribute(operatorType, filter, sql, filter, sql, None, None)
  }

  /** The five-argument constructor: the three-argument one, then both templates replaced. */
  function Attribute5(operatorType: OperatorType, filter: string, sql: string,
                      filterTemplate: string, sqlTemplate: string): (a: OperatorAttribute)
    ensures a.operatorType == operatorType && a.filter == filter && a.sql == sql
    ensures a.filterTemplate == filterTemplate && a.sqlTemplate == sqlTemplate
    ensures a.overloadFilterTemplate.None? && a.overloadSqlTemplate.None?
  {
    Attribute3(operatorType, filter, sql).(filterTemplate := filterTemplate, sqlTemplate := sqlTemplate)
  }

  /** The seven-argument constructor: the five-argument one, then both overload templates set. */
  function Attribute7(operatorType: OperatorType, filter: string, sql: string,
                      filterTemplate: string, sqlTemplate: string,
                      overloadFilterTemplate: string, overloadSqlTemplate: string): (a: OperatorAttribute)
    ensures a.operatorType == operatorType && a.filter == filter && a.sql == sql
    ensures a.filterTemplate == filterTemplate && a.sqlTemplate == sqlTemplate
    ensures a.overloadFilterTemplate == Some(overloadFilterTemplate)
    ensures a.overloadSqlTemplate == Some(overloadSqlTemplate)
  {
    Attribute5(operatorType, filter, sql, filterTemplate, sqlTemplate)
      .(overloadFilterTemplate := Some(overloadFilterTemplate), overloadSqlTemplate := Some(overloadSqlTemplate))
  }
}
