/**
 * The operator registry (Operator.cs): every operator class with its
 * attribute, the registry of the implemented ones keyed case-insensitively
 * by filter keyword, the list of function names, template selection and
 * rendering of an operator by dialect.
 */
module Operators {

  import opened Wrappers
  import opened Strings
  import opened OperatorTypes
  import opened OperatorAttributes
  import opened Rendering

  const LhsOpRhs: string := "{lhs} {op} {rhs}"
  const FuncLhsRhs: string := "{op}({lhs},{rhs})"
  const FuncLhsRhsRhs1: string := "{op}({lhs},{rhs},{rhs1})"
  const FuncLhs: string := "{op}({lhs})"
  const Func: string := "{op}()"

  /** An operator instance: the fields its constructor copies from the class's attribute. */
  datatype Operator = Operator(
    filter: string,
    sql: string,
    filterTemplate: string,
    sqlTemplate: string,
    overloadFilterTemplate: Option<string>,
    overloadSqlTemplate: Option<string>,
    operatorType: OperatorType)

  /** The `Operator()` constructor. */
  function FromAttribute(a: OperatorAttribute): (op: Operator)
    ensures op.filter == a.filter && op.sql == a.sql && op.operatorType == a.operatorType
    ensures op.filterTemplate == a.filterTemplate && op.sqlTemplate == a.sqlTemplate
    ensures op.overloadFilterTemplate == a.overloadFilterTemplate && op.overloadSqlTemplate == a.overloadSqlTemplate
  {
    Operator(a.filter, a.sql, a.filterTemplate, a.sqlTemplate,
             a.overloadFilterTemplate, a.overloadSqlTemplate, a.operatorType)
  }

  const NewLine: Operator := FromAttribute(Attribute3(Whitespace, "", "\r\n"))
  const And: Operator := FromAttribute(Attribute3(Binary, "and", "AND"))
  const Or: Operator := FromAttribute(Attribute3(Binary, "or", "OR"))

  /**
   * The registry: one instance of every operator class that is not marked
   * not implemented, in declaration order, each holding the fields its
   * class's attribute declares.
   */
  const Registry: seq<Operator> := [
    Operator("", "\r\n", "", "\r\n", None, None, Whitespace),
    Operator("(", "(", "(", "(", None, None, Grouping),
    Operator(")", ")", ")", ")", None, None, Grouping),
    Operator("or", "OR", "or", "OR", None, None, Binary),
    Operator("and", "AND", "and", "AND", None, None, Binary),
    Operator("eq", "=", LhsOpRhs, LhsOpRhs, None, None, Logical),
    Operator("not", "NOT", "{op} {rhs}", "{op} {rhs}", None, None, Logical),
    Operator("ex", "EXISTS", "{op} ({rhs})", "{op} ({rhs})", None, None, Logical),
    Operator("ge", ">=", LhsOpRhs, LhsOpRhs, None, None, Logical),
    Operator("gt", ">", LhsOpRhs, LhsOpRhs, None, None, Logical),
    Operator("le", "<=", LhsOpRhs, LhsOpRhs, None, None, Logical),
    Operator("lt", "<", LhsOpRhs, LhsOpRhs, None, None, Logical),
    Operator("add", "+", LhsOpRhs, LhsOpRhs, None, None, Arithmetic),
    Operator("sub", "-", LhsOpRhs, LhsOpRhs, None, None, Arithmetic),
    Operator("mul", "*", LhsOpRhs, LhsOpRhs, None, None, Arithmetic),
    Operator("div", "/", LhsOpRhs, LhsOpRhs, None, None, Arithmetic),
    Operator("mod", "%", LhsOpRhs, LhsOpRhs, None, None, Arithmetic),
    Operator("contains", "LIKE", FuncLhsRhs, "{lhs} {op} '%' + {rhs} + '%'", None, None, Function),
    Operator("endswith", "LIKE", FuncLhsRhs, "{lhs} {op} {rhs} + '%'", None, None, Function),
    Operator("startswith", "LIKE", FuncLhsRhs, "{lhs} {op} '%' + {rhs}", None, None, Function),
    Operator("length", "LEN", FuncLhs, FuncLhs, None, None, Function),
    Operator("indexof", "CHARINDEX", FuncLhsRhs, FuncLhsRhs, None, None, Function),
    Operator("substring", "SUBSTRING", FuncLhsRhs, FuncLhsRhs, Some(FuncLhsRhsRhs1), Some(FuncLhsRhsRhs1), Function),
    Operator("trim", "LTRIM(RTRIM", FuncLhs, "{op}({lhs}))", None, None, Function),
    Operator("concat", "CONCAT", FuncLhsRhs, FuncLhsRhs, None, None, Function),
    Operator("year", "DATEPART", FuncLhs, "{op}(year, {lhs})", None, None, Function),
    Operator("month", "DATEPART", FuncLhs, "{op}(month, {lhs})", None, None, Function),
    Operator("day", "DATEPART", FuncLhs, "{op}(day, {lhs})", None, None, Function),
    Operator("hour", "DATEPART", FuncLhs, "{op}(hour, {lhs})", None, None, Function),
    Operator("minute", "DATEPART", FuncLhs, "{op}(minute, {lhs})", None, None, Function),
    Operator("second", "DATEPART", FuncLhs, "{op}(second, {lhs})", None, None, Function),
    Operator("fractionalseconds", "DATEPART", FuncLhs, "{op}(millisecond, {lhs})", None, None, Function),
    Operator("now", "GETUTCDATE", Func, Func, None, None, Function),
    Operator("maxdatetime", "", Func, "CAST('9999-12-31 23:59:59.997' AS DATETIME)", None, None, Function),
    Operator("mindatetime", "", Func, "CAST('1753-01-01 00:00:00.000' AS DATETIME)", None, None, Function),
    Operator("round", "ROUND", FuncLhs, "{op}({lhs},0)", None, None, Function),
    Operator("floor", "FLOOR", FuncLhs, FuncLhs, None, None, Function),
    Operator("ceiling", "CEILING", FuncLhs, FuncLhs, None, None, Function)
  ]

  /** The registry keywords in order. */
  const Keywords: seq<string> := ["", "(", ")", "or", "and", "eq", "not", "ex", "ge", "gt", "le", "lt",
    "add", "sub", "mul", "div", "mod", "contains", "endswith", "startswith", "length", "indexof", "substring",
    "trim", "concat", "year", "month", "day", "hour", "minute", "second", "fractionalseconds",
    "now", "maxdatetime", "mindatetime", "round", "floor", "ceiling"]

  /** The attributes of the classes marked not implemented, which the registry leaves out. */
  const NotImplementedAttributes: seq<OperatorAttribute> := [
    Attribute5(Function, "tolower", "LOWER", FuncLhs, FuncLhs),
    Attribute5(Function, "toupper", "UPPER", FuncLhs, FuncLhs),
    Attribute5(Function, "date", "?", FuncLhs, "?"),
    Attribute5(Function, "time", "?", FuncLhs, "?"),
    Attribute5(Function, "totaloffsetminutes", "?", FuncLhs, "?"),
    Attribute5(Function, "totalseconds", "?", FuncLhs, "?"),
    Attribute5(Function, "isof", "?", "?", "?"),
    Attribute5(Function, "cast", "?", "?", "?"),
    Attribute5(Function, "geo.distance", "?", "?", "?"),
    Attribute5(Function, "geo.intersects", "?", "?", "?"),
    Attribute5(Function, "geo.length", "?", "?", "?"),
    Attribute5(Function, "any", "?", "?", "?"),
    Attribute5(Function, "all", "?", "?", "?")
  ]

  /** `string.IsNullOrWhiteSpace` on an optional template. */
  predicate IsBlank(t: Option<string>) {
    IsNullOrWhiteSpace(t)
  }

  /** `GetTemplate(right1Supplied)`: the overload pair when a third operand is supplied and both overloads are non-blank, else the base pair. */
  function GetTemplate(op: Operator, right1Supplied: bool): (r: SqlAndFilter)
    ensures (right1Supplied && !IsBlank(op.overloadFilterTemplate) && !IsBlank(op.overloadSqlTemplate))
            ==> r == SqlAndFilter(op.overloadFilterTemplate.value, op.overloadSqlTemplate.value)
    ensures !(right1Supplied && !IsBlank(op.overloadFilterTemplate) && !IsBlank(op.overloadSqlTemplate))
            ==> r == SqlAndFilter(op.filterTemplate, op.sqlTemplate)
  {
    if !IsBlank(op.overloadFilterTemplate) && !IsBlank(op.overloadSqlTemplate) && right1Supplied
    then SqlAndFilter(op.overloadFilterTemplate.value, op.overloadSqlTemplate.value)
    else SqlAndFilter(op.filterTemplate, op.sqlTemplate)
  }

  /** `ToString(syntax)`: the filter keyword for `Filter`, the SQL spelling for every other dialect. */
  function ToString(op: Operator, syntax: Syntax): (r: string)
    ensures syntax == Filter ==> r == op.filter
    ensures syntax != Filter ==> r == op.sql
  {
    if syntax == Filter then op.filter else op.sql
  }

  /** The first operator of `ops` whose keyword equals `name` ignoring case. */
  function Find(ops: seq<Operator>, name: string): Option<Operator>
    decreases |ops|
  {
    if ops == [] then None
    else if EqualsIgnoreCase(ops[0].filter, name) then Some(ops[0])
    else Find(ops[1..], name)
  }

  /** A found operator is one of `ops` and matches; nothing is found exactly when nothing matches. */
  lemma {:induction false} FindMeans(ops: seq<Operator>, name: string)
    ensures Find(ops, name).Some? ==> Find(ops, name).value in ops && EqualsIgnoreCase(Find(ops, name).value.filter, name)
    ensures Find(ops, name).None? <==> forall op :: op in ops ==> !EqualsIgnoreCase(op.filter, name)
    decreases |ops|
  {
    if ops != [] && !EqualsIgnoreCase(ops[0].filter, name) {
      FindMeans(ops[1..], name);
      assert forall op :: op in ops ==> op == ops[0] || op in ops[1..];
    }
  }

  /** `Operator.Parse`: case-insensitive keyword lookup in the registry; null (None) for an unknown keyword. */
  function Parse(name: string): Option<Operator> {
    Find(Registry, name)
  }

  /** `GetNamesByType`: the keywords of the registered operators whose kind has the flag, in registry order. */
  function NamesByType(ops: seq<Operator>, flag: OperatorType): (r: seq<string>)
    ensures forall n :: n in r <==> exists op :: op in ops && HasFlag(op.operatorType, flag) && op.filter == n
  {
    if ops == [] then []
    else (if HasFlag(ops[0].operatorType, flag) then [ops[0].filter] else []) + NamesByType(ops[1..], flag)
  }

  /** `FunctionNames`: the keywords of the registered function operators. */
  function FunctionNames(): seq<string> {
    NamesByType(Registry, Function)
  }

  /** `NamesByType(ops, flag).Contains(n)`, entry by entry. */
  predicate NamedByType(ops: seq<Operator>, flag: OperatorType, n: string)
    decreases |ops|
  {
    ops != [] && ((HasFlag(ops[0].operatorType, flag) && ops[0].filter == n) || NamedByType(ops[1..], flag, n))
  }

  /** `FunctionNames().Contains(n)`. */
  predicate IsFunctionName(n: string) {
    NamedByType(Registry, Function, n)
  }

  lemma {:induction false} NamedByTypeMeans(ops: seq<Operator>, flag: OperatorType, n: string)
    ensures NamedByType(ops, flag, n) <==> n in NamesByType(ops, flag)
    decreases |ops|
  {
    if ops != [] {
      NamedByTypeMeans(ops[1..], flag, n);
    }
  }

  /** The entry-by-entry test is membership in `FunctionNames`. */
  lemma {:induction false} IsFunctionNameMeans(n: string)
    ensures IsFunctionName(n) <==> n in FunctionNames()
  {
    NamedByTypeMeans(Registry, Function, n);
  }

  // ---- properties of the table ----

  /** The registry keywords are the keyword list, position by position. */
  lemma {:induction false} RegistryKeywords()
    ensures |Registry| == |Keywords|
    ensures forall i :: 0 <= i < |Registry| ==> Registry[i].filter == Keywords[i]
  {
    EarlyEntryKeywords();
    LateEntryKeywords();
  }

  lemma {:induction false} EarlyEntryKeywords()
    ensures forall i :: 0 <= i < 19 ==> Registry[i].filter == Keywords[i]
  {
  }

  lemma {:induction false} LateEntryKeywords()
    ensures forall i :: 19 <= i < 38 ==> Registry[i].filter == Keywords[i]
  {
  }

  /** Every registered keyword is already in lower case. */
  lemma {:induction false} KeywordsAreLowerCase()
    ensures forall i :: 0 <= i < |Registry| ==> HasNoUpper(Registry[i].filter)
  {
    RegistryKeywords();
    KeywordListIsLowerCase();
    forall i | 0 <= i < |Registry| ensures HasNoUpper(Registry[i].filter) {
      assert Registry[i].filter == Keywords[i];
    }
  }

  /** The keyword list holds no upper-case letter. */
  lemma {:induction false} KeywordListIsLowerCase()
    ensures forall i :: 0 <= i < |Keywords| ==> HasNoUpper(Keywords[i])
  {
    EarlyKeywordsLowerCase();
    LateKeywordsLowerCase();
  }

  lemma {:induction false} EarlyKeywordsLowerCase()
    ensures forall i :: 0 <= i < 19 ==> HasNoUpper(Keywords[i])
  {
  }

  lemma {:induction false} LateKeywordsLowerCase()
    ensures forall i :: 19 <= i < |Keywords| ==> HasNoUpper(Keywords[i])
  {
  }
  /** The keyword list has no repeats. */
  lemma {:induction false} KeywordsDistinct()
    ensures forall i, j :: 0 <= i < j < |Keywords| ==> Keywords[i] != Keywords[j]
  {
    EarlyKeywordsDistinct();
    LateKeywordsDistinct();
    EarlyAndLateKeywordsDiffer();
  }

  lemma {:induction false} EarlyKeywordsDistinct()
    ensures forall i, j :: 0 <= i < j < 19 ==> Keywords[i] != Keywords[j]
  {
  }

  lemma {:induction false} LateKeywordsDistinct()
    ensures forall i, j :: 19 <= i < j < |Keywords| ==> Keywords[i] != Keywords[j]
  {
  }

  lemma {:induction false} EarlyAndLateKeywordsDiffer()
    ensures forall i, j :: 0 <= i < 19 <= j < |Keywords| ==> Keywords[i] != Keywords[j]
  {
  }

  /**
   * Registered keywords are pairwise distinct even ignoring case, so the
   * case-insensitive dictionary can be built and lookup has at most one answer.
   */
  lemma {:induction false} KeywordsDistinctIgnoringCase()
    ensures forall i, j :: 0 <= i < j < |Registry| ==> !EqualsIgnoreCase(Registry[i].filter, Registry[j].filter)
  {
    KeywordsAreLowerCase();
    RegistryKeywords();
    KeywordsDistinct();
    forall i | 0 <= i < |Registry| ensures Lower(Registry[i].filter) == Registry[i].filter {
      LowerOfNoUpper(Registry[i].filter);
    }
  }

  /** In a list whose keywords are distinct ignoring case, lookup succeeds exactly on the matching entry. */
  lemma {:induction false} FindExactly(ops: seq<Operator>, name: string, op: Operator)
    requires forall i, j :: 0 <= i < j < |ops| ==> !EqualsIgnoreCase(ops[i].filter, ops[j].filter)
    ensures Find(ops, name) == Some(op) <==> (op in ops && EqualsIgnoreCase(op.filter, name))
  {
    FindMeans(ops, name);
    if op in ops && EqualsIgnoreCase(op.filter, name) {
      var r := Find(ops, name);
      var i :| 0 <= i < |ops| && ops[i] == op;
      var j :| 0 <= j < |ops| && ops[j] == r.value;
      assert EqualsIgnoreCase(ops[i].filter, ops[j].filter);
      assert !(i < j) && !(j < i);
    }
  }

  /** Lookup succeeds exactly on the registered operator whose keyword matches ignoring case. */
  lemma {:induction false} ParseExactly(name: string, op: Operator)
    ensures Parse(name) == Some(op) <==> (op in Registry && EqualsIgnoreCase(op.filter, name))
  {
    KeywordsDistinctIgnoringCase();
    FindExactly(Registry, name, op);
  }

  /** The keywords of the classes marked not implemented hold no upper-case letter. */
  lemma {:induction false} NotImplementedLower()
    ensures forall j :: 0 <= j < |NotImplementedAttributes| ==> HasNoUpper(NotImplementedAttributes[j].filter)
  {
    EarlyNotImplementedLower();
    LateNotImplementedLower();
  }

  lemma {:induction false} EarlyNotImplementedLower()
    ensures forall j :: 0 <= j < 7 ==> HasNoUpper(NotImplementedAttributes[j].filter)
  {
  }

  lemma {:induction false} LateNotImplementedLower()
    ensures forall j :: 7 <= j < |NotImplementedAttributes| ==> HasNoUpper(NotImplementedAttributes[j].filter)
  {
  }
  /** The keywords of the classes marked not implemented, written out as a list. */
  lemma {:induction false} NotImplementedNames()
    ensures forall j :: 0 <= j < |NotImplementedAttributes| ==> NotImplementedAttributes[j].filter in NotImplementedKeywordList
  {
  }
  const NotImplementedKeywordList: seq<string> := ["tolower", "toupper", "date", "time", "totaloffsetminutes", "totalseconds", "isof", "cast", "geo.distance", "geo.intersects", "geo.length", "any", "all"]
  /** No keyword of a class marked not implemented is a registered keyword. */
  lemma {:induction false} NotImplementedLists()
    ensures forall j, i :: 0 <= j < |NotImplementedKeywordList| && 0 <= i < |Keywords| ==> NotImplementedKeywordList[j] != Keywords[i]
  {
  }

  /** Lookup fails when no entry matches, stated over positions. */
  lemma {:induction false} FindNone(ops: seq<Operator>, name: string)
    requires forall i :: 0 <= i < |ops| ==> !EqualsIgnoreCase(ops[i].filter, name)
    ensures Find(ops, name).None?
  {
    if ops != [] {
      assert !EqualsIgnoreCase(ops[0].filter, name);
      FindNone(ops[1..], name);
    }
  }

  /** A keyword whose every entry lacks the flag is not among the names by type, stated over positions. */
  lemma {:induction false} NotAmongNamesByType(ops: seq<Operator>, flag: OperatorType, n: string)
    requires forall i :: 0 <= i < |ops| && ops[i].filter == n ==> !HasFlag(ops[i].operatorType, flag)
    ensures n !in NamesByType(ops, flag)
  {
    if ops != [] {
      NotAmongNamesByType(ops[1..], flag, n);
    }
  }

  /** A lower-case name that differs from every lower-case keyword matches none ignoring case. */
  lemma {:induction false} NoCaseMatch(ops: seq<Operator>, name: string)
    requires HasNoUpper(name)
    requires forall i :: 0 <= i < |ops| ==> HasNoUpper(ops[i].filter) && ops[i].filter != name
    ensures forall i :: 0 <= i < |ops| ==> !EqualsIgnoreCase(ops[i].filter, name)
  {
    LowerOfNoUpper(name);
    forall i | 0 <= i < |ops| ensures !EqualsIgnoreCase(ops[i].filter, name) {
      LowerOfNoUpper(ops[i].filter);
    }
  }

  /** A lower-case word that is not a keyword is neither registered nor a function name. */
  lemma {:induction false} AbsentKeyword(name: string)
    requires HasNoUpper(name)
    requires forall i :: 0 <= i < |Keywords| ==> Keywords[i] != name
    ensures Parse(name).None? && name !in FunctionNames()
  {
    RegistryKeywords();
    KeywordsAreLowerCase();
    NoCaseMatch(Registry, name);
    FindNone(Registry, name);
    NotAmongNamesByType(Registry, Function, name);
  }

  /** The keywords of the classes marked not implemented are not registered and are not function names. */
  lemma {:induction false} NotImplementedAreAbsent()
    ensures forall a :: a in NotImplementedAttributes ==> Parse(a.filter).None?
    ensures forall a :: a in NotImplementedAttributes ==> a.filter !in FunctionNames()
  {
    NotImplementedLower();
    NotImplementedNames();
    NotImplementedLists();
    forall a | a in NotImplementedAttributes
      ensures Parse(a.filter).None? && a.filter !in FunctionNames()
    {
      var k :| 0 <= k < |NotImplementedKeywordList| && NotImplementedKeywordList[k] == a.filter;
      AbsentKeyword(a.filter);
    }
  }

  /** Only `substring` declares an overload, and it is the three-operand function template in both dialects. */
  lemma {:induction false} OnlySubstringHasOverload()
    ensures forall i :: 0 <= i < |Registry| ==>
      ((Registry[i].overloadFilterTemplate.Some? || Registry[i].overloadSqlTemplate.Some?) <==> Registry[i].filter == "substring")
    ensures forall i :: 0 <= i < |Registry| && Registry[i].filter == "substring" ==>
      Registry[i].overloadFilterTemplate == Some(FuncLhsRhsRhs1) && Registry[i].overloadSqlTemplate == Some(FuncLhsRhsRhs1)
  {
    EarlyOverloads();
    LateOverloads();
    assert forall i :: 0 <= i < |Registry| ==> OverloadRule(Registry[i]);
  }

  /** An entry declares an overload exactly when it is `substring`, and then the three-operand template. */
  predicate OverloadRule(op: Operator) {
    ((op.overloadFilterTemplate.Some? || op.overloadSqlTemplate.Some?) <==> op.filter == "substring") &&
    (op.filter == "substring" ==>
      op.overloadFilterTemplate == Some(FuncLhsRhsRhs1) && op.overloadSqlTemplate == Some(FuncLhsRhsRhs1))
  }

  lemma {:induction false} EarlyOverloads()
    ensures forall i :: 0 <= i < 19 ==> OverloadRule(Registry[i])
  {
  }

  lemma {:induction false} LateOverloads()
    ensures forall i :: 19 <= i < |Registry| ==> OverloadRule(Registry[i])
  {
  }

  /** Comparison and arithmetic operators render infix, `{lhs} {op} {rhs}`, in both dialects. */
  lemma {:induction false} ComparisonsAndArithmeticAreInfix()
    ensures forall i :: 0 <= i < |Registry| && Registry[i].filter in InfixKeywords ==>
      Registry[i].filterTemplate == LhsOpRhs && Registry[i].sqlTemplate == LhsOpRhs
  {
    RegistryKeywords();
    InfixKeywordPositions();
    InfixPositions();
  }

  /** Where the comparison and arithmetic keywords sit in the keyword list. */
  lemma {:induction false} InfixKeywordPositions()
    ensures forall i :: 0 <= i < |Keywords| && Keywords[i] in InfixKeywords ==> i == 5 || 8 <= i < 17
  {
  }

  lemma {:induction false} InfixPositions()
    ensures forall i :: (i == 5 || 8 <= i < 17) ==> Registry[i].filterTemplate == LhsOpRhs && Registry[i].sqlTemplate == LhsOpRhs
  {
  }

  const InfixKeywords: set<string> := {"eq", "ge", "gt", "le", "lt", "add", "sub", "mul", "div", "mod"}

  /** The registry positions holding a parenthesis or a connective hold no function. */
  lemma {:induction false} PunctuationEntries()
    ensures forall i :: 0 <= i < |Registry| && Registry[i].filter in {"(", ")", "and", "or"} ==>
      !HasFlag(Registry[i].operatorType, Function)
  {
    RegistryKeywords();
    TypesByPosition();
    KindsHaveNoFunctionFlag();
    LaterKeywords();
  }

  /** The parentheses and the connectives are not function names. */
  lemma {:induction false} PunctuationIsNotAFunction()
    ensures forall n :: n in {"(", ")", "and", "or"} ==> n !in FunctionNames()
  {
    PunctuationEntries();
    forall n | n in {"(", ")", "and", "or"} ensures n !in FunctionNames() {
      NotAmongNamesByType(Registry, Function, n);
    }
  }

  /** The operators the criteria renderer instantiates are the registry's instances. */
  lemma {:induction false} ConnectiveOperatorsRegistered()
    ensures NewLine == Registry[0] && Or == Registry[3] && And == Registry[4]
  {
  }

  /** Two table entries written out against their attribute declarations. */
  lemma {:induction false} EntriesFollowAttributes()
    ensures Registry[5] == FromAttribute(Attribute5(Logical, "eq", "=", LhsOpRhs, LhsOpRhs))
    ensures Registry[22] == FromAttribute(Attribute7(Function, "substring", "SUBSTRING",
                                                     FuncLhsRhs, FuncLhsRhs, FuncLhsRhsRhs1, FuncLhsRhsRhs1))
  {
  }

  /** Positions 17 onward hold the functions; the earlier ones hold the other kinds. */
  lemma {:induction false} TypesByPosition()
    ensures forall i :: 17 <= i < |Registry| ==> Registry[i].operatorType == Function
    ensures forall i :: 0 <= i < 17 ==> Registry[i].operatorType in {Whitespace, Grouping, Binary, Logical, Arithmetic}
  {
  }
  /** None of the non-function kinds carries the function flag. */
  lemma {:induction false} KindsHaveNoFunctionFlag()
    ensures forall t :: t in {Whitespace, Grouping, Binary, Logical, Arithmetic} ==> !HasFlag(t, Function)
  {
  }
  /** No keyword from position 17 onward is a parenthesis or a connective. */
  lemma {:induction false} LaterKeywords()
    ensures forall i :: 17 <= i < |Keywords| ==> Keywords[i] !in {"(", ")", "and", "or"}
  {
  }
}
