# filter-parser in Dafny

A model of the core of JimTaylor1974.FilterParser. The library compiles an
OData-style `$filter` text, such as `name eq 'Bob' and substring(code,1,2) eq 'AB'`,
into a tree of *criteria* that can be printed back as filter text, as SQL with
`@FilterN` parameters, or as SqlKata SQL with `?` placeholders.

The compiler works in five stages, and the model keeps each one.
1. `Parse` wraps the text in parentheses unless it is already wrapped, and hands it to a tokenizer.
2. One pass over the tokens builds a provisional syntax tree. A cursor node opens function and group nodes on `(`, closes them on `)`, inserts binary markers on `and`/`or`, and stores every other token. A second pass removes the empty leaves.
3. Each token becomes a fragment: an operator from the registry, a comma, a parameter (quoted strings, numbers, constants, `true`/`false`/`null`), a field identifier, or an unparsed token. A shared counter names the parameters `Filter0`, `Filter1`, ….
4. An `OperatorBuilder` turns a node's fragments into an operator expression. The first operator is the anchor. Fragments are assigned to the left, right and third operands, and a different operator starts a new builder.
5. A binary group is split at its markers into runs, and each run becomes one child of an `And` or `Or` criteria.

Modules follow the source files.
- `Operators`: the operator registry, `Parse` and `FunctionNames`.
- `OperatorAttributes`, `OperatorTypes`.
- `Expressions`: operator, group and fragment expressions, how they render and their parameters.
- `OperatorBuilders`: the builder class and its assignment function; `OperatorBuilderProperties`.
- `CriteriaTree`: criteria, their text and their parameters.
- `SyntaxTrees`: the token loop over a node arena, class `Arena`, and the cleanup; `SyntaxTreeProperties`.
- `CriteriaParse`: token classification, flattening, the binary-group split, `Parse` and `TryParse`; `CriteriaParseProperties`.
- `Separators` (class `Separator`), `Extensions`, `Identifiers`, `Parameters`, `Rendering` (`ToSqlAndFilter`).
- Supporting modules: `Strings`, `Templates`, `Tokens`, `Values`, `Faults`, `Wrappers`.

State that the source updates in place is modelled imperatively:
- `Separator` is a class whose `Value` flips a flag.
- `OperatorBuilder` is a class whose `Add` appends to a fragment list.
- The syntax-tree nodes sit in the `Arena` class, whose methods update them.
- `IsBinaryGroup`, `GetDistinctParameters`, the join in `Criteria.ToString` and the loop of `BuildCriteria(tokens)` are methods with loops.

Each of these methods is proved equal to a specification function. The source's promises are proved as lemmas about those functions.

Exceptions are modelled as an `Outcome` error value. The `Faults` module names them:
- `CriteriaParseException` for unresolved operands and a missing operation;
- `ArgumentOutOfRange` for `RemoveAt`/`Substring`;
- `NullReference` for a missing ancestor on `)`.

## Model

| member | source | states |
|---|---|---|
| Rendering.ToString | JimTaylor1974.FilterParser/ToSqlAndFilter.cs:14-17 | the filter dialect selects the filter text; SQL and SqlKata select the SQL text |
| OperatorTypes.HasFunctionFlagOfSingleKind | JimTaylor1974.FilterParser/OperatorType.cs:5-16 | for a single flag value, `HasFlag(Function)` holds exactly for `Function` |
| OperatorTypes.HasUnknownFlag | JimTaylor1974.FilterParser/OperatorType.cs:8 | `Unknown` is 0, so every type has the `Unknown` flag |
| OperatorAttributes.Attribute3 | JimTaylor1974.FilterParser/OperatorAttribute.cs:17-25 | the three-argument attribute uses the filter and SQL names as templates and has no overload |
| OperatorAttributes.Attribute5 | JimTaylor1974.FilterParser/OperatorAttribute.cs:27-34 | the five-argument attribute keeps its templates and has no overload |
| OperatorAttributes.Attribute7 | JimTaylor1974.FilterParser/OperatorAttribute.cs:36-44 | the seven-argument attribute also keeps both overload templates |
| Operators.FromAttribute | JimTaylor1974.FilterParser/Operator.cs:44-58 | an operator copies all seven fields of its attribute |
| Operators.GetTemplate | JimTaylor1974.FilterParser/Operator.cs:69-77 | the overload templates are used exactly when a third operand is supplied and neither overload is blank; otherwise the plain templates are used |
| Operators.ToString | JimTaylor1974.FilterParser/Operator.cs:79-84 | the filter dialect prints the filter keyword; the others print the SQL keyword |
| Operators.FindMeans | JimTaylor1974.FilterParser/Operator.cs:91-99 | a lookup that finds something finds a registry entry equal to the name ignoring case; it finds nothing exactly when no entry matches |
| Operators.FindExactly | JimTaylor1974.FilterParser/Operator.cs:91-99 | in a table with no two keys equal ignoring case, the lookup yields `op` if and only if `op` is in the table and matches the name |
| Operators.ParseExactly | JimTaylor1974.FilterParser/Operator.cs:91-99 | `Parse(name)` is `op` if and only if `op` is registered under a keyword equal to `name` ignoring case |
| Operators.KeywordsDistinctIgnoringCase | JimTaylor1974.FilterParser/Operator.cs:15-26 | no two registered keywords are equal ignoring case, so building the case-insensitive dictionary does not throw |
| Operators.KeywordsAreLowerCase | JimTaylor1974.FilterParser/Operator.cs:106-336 | every registered keyword is lower case |
| Operators.KeywordsDistinct | JimTaylor1974.FilterParser/Operator.cs:106-336 | the registered keywords are pairwise different |
| Operators.RegistryKeywords | JimTaylor1974.FilterParser/Operator.cs:15-26 | the registry holds one operator per implemented operator class, in declaration order, keyed by its keyword |
| Operators.NamesByType | JimTaylor1974.FilterParser/Operator.cs:30-34 | a name is listed if and only if some operator has that filter name and carries the flag |
| Operators.IsFunctionNameMeans | JimTaylor1974.FilterParser/Operator.cs:28-34 | the entry-by-entry test of the registry is membership in `functionNames` |
| Operators.NotImplementedAreAbsent | JimTaylor1974.FilterParser/Operator.cs:18 | no operator marked `[NotImplemented]` can be parsed, and none is a function name |
| Operators.NotImplementedNames | JimTaylor1974.FilterParser/Operator.cs:227-376 | each `[NotImplemented]` class keeps its keyword in the list of unregistered keywords |
| Operators.NotImplementedLists | JimTaylor1974.FilterParser/Operator.cs:227-376 | no unregistered keyword equals a registered one |
| Operators.AbsentKeyword | JimTaylor1974.FilterParser/Operator.cs:91-101 | a lower-case name that is not a registered keyword parses to null and is not a function name |
| Operators.OnlySubstringHasOverload | JimTaylor1974.FilterParser/Operator.cs:222-225 | `substring` is the only operator with overload templates |
| Operators.ComparisonsAndArithmeticAreInfix | JimTaylor1974.FilterParser/Operator.cs:130-195 | `eq`, the comparisons and the arithmetic operators use the `{lhs} {op} {rhs}` template in both dialects |
| Operators.PunctuationIsNotAFunction | JimTaylor1974.FilterParser/Operator.cs:28 | `(`, `)`, `and` and `or` are not function names |
| Operators.ConnectiveOperatorsRegistered | JimTaylor1974.FilterParser/Operator.cs:106-130 | the `NewLine`, `Or` and `And` instances that the criteria text uses are the registered ones |
| Operators.EntriesFollowAttributes | JimTaylor1974.FilterParser/Operator.cs:130-225 | the `eq` and `substring` entries are the operators their attributes build |
| Operators.TypesByPosition | JimTaylor1974.FilterParser/Operator.cs:106-336 | the first 17 entries are punctuation, logical or arithmetic operators, and the rest are functions |
| Parameters.NewParameter | JimTaylor1974.FilterParser/Parameter.cs:5-8 | a parameter built from a name alone holds that name and a null value |
| Parameters.NewParameterWithValue | JimTaylor1974.FilterParser/Parameter.cs:10-14 | a parameter holds its name and value |
| Parameters.ToString | JimTaylor1974.FilterParser/Parameter.cs:20-25 | SqlKata prints `?`; the other dialects print `@` followed by the name |
| Parameters.ToStringIgnoresValue | JimTaylor1974.FilterParser/Parameter.cs:20-25 | the printed parameter does not depend on its value |
| Parameters.PlaceholderDeterminesName | JimTaylor1974.FilterParser/Parameter.cs:20-25 | outside SqlKata, two parameters print the same if and only if their names are equal |
| Identifiers.FromField | JimTaylor1974.FilterParser/Identifier.cs:7-10 | a field identifier prints as the bracketed field name |
| Identifiers.FromQualified | JimTaylor1974.FilterParser/Identifier.cs:12-15 | a qualified identifier prints as the bracketed alias, a dot, and the bracketed field |
| Identifiers.FromFieldOfBracketed | JimTaylor1974.FilterParser/Identifier.cs:7-10 | bracketing an already bracketed field name changes nothing |
| Identifiers.FromQualifiedOfBracketed | JimTaylor1974.FilterParser/Identifier.cs:12-15 | the same holds for each part of a qualified identifier |
| Extensions.EscapeSingleQuotes | JimTaylor1974.FilterParser/Extensions.cs:10-13 | null stays null, and a string gets every single quote doubled |
| Extensions.ReplaceQuoteIsDoubling | JimTaylor1974.FilterParser/Extensions.cs:10-13 | `Replace("'", "''")` doubles each quote |
| Extensions.EscapeRoundTrip | JimTaylor1974.FilterParser/Extensions.cs:10-13 | undoubling an escaped string gives back the original |
| Extensions.SurroundWithSingleQuotes | JimTaylor1974.FilterParser/Extensions.cs:15-18 | the result is the input between one leading and one trailing quote |
| Extensions.SurroundWithSquareBracketsIdempotent | JimTaylor1974.FilterParser/Extensions.cs:20-29 | `SurroundWithSquareBrackets` applied twice gives the same text as applied once, `*` included |
| Extensions.BracketSegments | JimTaylor1974.FilterParser/Extensions.cs:20-29 | each segment is bracketed in place, starting with `[` and ending with `]` |
| Extensions.TrimBracketed | JimTaylor1974.FilterParser/Extensions.cs:28 | trimming brackets from a bracketed segment that has no outer brackets of its own gives back the segment |
| Extensions.ToSqlBit | JimTaylor1974.FilterParser/Extensions.cs:31-34 | the absolute value of `Convert.ToInt32(b)`, printed invariantly, is `1` for true and `0` for false |
| Extensions.ToSqlType | JimTaylor1974.FilterParser/Extensions.cs:36-72 | only `Int32` maps to a type (`INT`); the other named types are not implemented; an undefined code is not supported, and the message names the code |
| Extensions.ToSqlLiteral | JimTaylor1974.FilterParser/Extensions.cs:74-104 | null and DBNull print `NULL`, a boolean prints as a bit, a string prints quoted, and any other value prints its text |
| Extensions.StringLiteralRoundTrip | JimTaylor1974.FilterParser/Extensions.cs:74-104 | removing the outer quotes of a string literal and undoubling gives back the string |
| Expressions.Convert | JimTaylor1974.FilterParser/Expression.cs:38-46 | fragments that implement `IToSqlAndFilter` become their text in the dialect; all others stay unchanged |
| Expressions.Distinct | JimTaylor1974.FilterParser/Expression.cs:28-31 | `Union` keeps each parameter once, drops nothing and adds nothing |
| Expressions.DistinctPrefix | JimTaylor1974.FilterParser/Expression.cs:28-31 | `Union` keeps first occurrences: the de-duplicated `a + b` starts with the de-duplicated `a`, and every later element comes from `b` and is not in `a` |
| Expressions.DistinctOfDistinct | JimTaylor1974.FilterParser/Expression.cs:28-31 | a list without repeats is its own `Union` |
| Expressions.ParametersAreOccurrences | JimTaylor1974.FilterParser/Expression.cs:28-31 | an expression's parameters have no duplicates and are exactly the parameters that occur anywhere in it |
| Expressions.NestedBeforeDirect | JimTaylor1974.FilterParser/Expression.cs:148-155 | a fragment expression lists the parameters of its nested expressions first, each once and in argument order; every later one is a direct parameter argument that no nested expression holds |
| Expressions.NestedBeforeDirectPair | JimTaylor1974.FilterParser/Expression.cs:148-155 | a direct parameter written before a nested one is listed after it |
| Expressions.GroupParameters | JimTaylor1974.FilterParser/Expression.cs:114-117 | a group has the parameters and occurrences of its inner expression |
| Expressions.DirectParameters | JimTaylor1974.FilterParser/Expression.cs:148-155 | the direct parameters are exactly the parameter fragments |
| Expressions.FillInfix | JimTaylor1974.FilterParser/Expression.cs:65-82 | filling `{lhs} {op} {rhs}` gives the left operand, the operator and the right operand, separated by spaces |
| Expressions.FillFunction2 | JimTaylor1974.FilterParser/Expression.cs:65-82 | filling `{op}({lhs},{rhs})` gives a two-argument call |
| Expressions.FillFunction3 | JimTaylor1974.FilterParser/Expression.cs:65-82 | filling `{op}({lhs},{rhs},{rhs1})` gives a three-argument call |
| Expressions.RenderInfix | JimTaylor1974.FilterParser/Expression.cs:65-82 | an infix operator expression prints as the left operand, the keyword and the right operand |
| Expressions.RenderWithThirdOperand | JimTaylor1974.FilterParser/Expression.cs:65-82 | an operator with overload templates and a third operand prints as a three-argument call |
| Expressions.RenderWithoutThirdOperand | JimTaylor1974.FilterParser/Expression.cs:65-82 | the same operator without a third operand prints as a two-argument call |
| Expressions.OverloadTemplates | JimTaylor1974.FilterParser/Operator.cs:69-77 | for `substring`-shaped operators, the template has three slots if and only if a third operand is supplied |
| Expressions.RenderGroup | JimTaylor1974.FilterParser/Expression.cs:94-97 | a group prints as its inner text between parentheses |
| Expressions.PlainFragmentsIgnoreSyntax | JimTaylor1974.FilterParser/Expression.cs:148-155 | identifiers, commas and unparsed tokens print the same in every dialect |
| Separators.Separator.constructor | JimTaylor1974.FilterParser/Separator.cs:8-11 | a new separator has not been used yet |
| Separators.Separator.Value | JimTaylor1974.FilterParser/Separator.cs:13-22 | the first call returns the empty string and every later call returns the separator |
| Separators.ConcatenatedValues | JimTaylor1974.FilterParser/Separator.cs:13-22 | `n` calls together return `n - 1` copies of the separator |
| CriteriaTree.NewCriteria | JimTaylor1974.FilterParser/Criteria.cs:12-15 | a new criteria has its type, no children and no expression |
| CriteriaTree.FromExpression | JimTaylor1974.FilterParser/Criteria.cs:22-28 | an expression criteria holds the expression and no children |
| CriteriaTree.AndOf | JimTaylor1974.FilterParser/Criteria.cs:30-40 | `And(criteria…)` has the given children, in order |
| CriteriaTree.OrOf | JimTaylor1974.FilterParser/Criteria.cs:42-52 | `Or(criteria…)` has the given children, in order |
| CriteriaTree.AndOfExpressions | JimTaylor1974.FilterParser/Criteria.cs:54-64 | `And(expressions…)` has one expression child per expression, in order |
| CriteriaTree.OrOfExpressions | JimTaylor1974.FilterParser/Criteria.cs:66-76 | `Or(expressions…)` has one expression child per expression, in order |
| CriteriaTree.Add | JimTaylor1974.FilterParser/Criteria.cs:78-83 | adding appends the child and keeps the type and the expression |
| CriteriaTree.EmptinessOfConstructions | JimTaylor1974.FilterParser/Criteria.cs:123-126 | a new criteria is empty; an expression criteria and any criteria after `Add` are not |
| CriteriaTree.AllParametersOfAdd | JimTaylor1974.FilterParser/Criteria.cs:102-121 | after `Add`, all parameters are the old ones followed by the child's |
| CriteriaTree.AllParametersOfExpression | JimTaylor1974.FilterParser/Criteria.cs:102-121 | an expression criteria has exactly its expression's parameters |
| CriteriaTree.DistinctParameters | JimTaylor1974.FilterParser/Criteria.cs:87-100 | the loop returns the first parameter of each name, in order of first appearance |
| CriteriaTree.DistinctByNameNames | JimTaylor1974.FilterParser/Criteria.cs:87-100 | the distinct parameters cover every name that occurs |
| CriteriaTree.DistinctByNameUnique | JimTaylor1974.FilterParser/Criteria.cs:87-100 | no two distinct parameters share a name |
| CriteriaTree.DistinctByNameSubset | JimTaylor1974.FilterParser/Criteria.cs:87-100 | every distinct parameter is one of all the parameters |
| CriteriaTree.DistinctKeepsFirst | JimTaylor1974.FilterParser/Criteria.cs:91-96 | the first parameter with a given name is the one kept |
| CriteriaTree.SeparatorTexts | JimTaylor1974.FilterParser/Criteria.cs:134-136 | `And` uses `\r\n AND ` in SQL and ` and ` in filter text, and `Or` uses the matching `OR`/`or` texts; SQL and SqlKata agree |
| CriteriaTree.ToText | JimTaylor1974.FilterParser/Criteria.cs:128-153 | the builder loop computes the criteria's text |
| CriteriaTree.JoinChildren | JimTaylor1974.FilterParser/Criteria.cs:138-145 | the loop over the children with a separator joins the children's texts with the separator |
| CriteriaTree.EmptyText | JimTaylor1974.FilterParser/Criteria.cs:128-153 | a criteria with no children and no expression prints `()` |
| CriteriaTree.ExpressionText | JimTaylor1974.FilterParser/Criteria.cs:147-150 | an expression criteria prints its expression |
| CriteriaTree.GroupText | JimTaylor1974.FilterParser/Criteria.cs:132-146 | a criteria with no expression prints its children's texts joined by the separator, in parentheses |
| CriteriaTree.TwoChildrenText | JimTaylor1974.FilterParser/Criteria.cs:132-146 | two children print as the first, the separator and the second, in parentheses |
| CriteriaTree.AddText | JimTaylor1974.FilterParser/Criteria.cs:78-83 | adding a child to a non-empty list of children appends the separator and the child's text before the closing parenthesis |
| CriteriaTree.ToCriteria | JimTaylor1974.FilterParser/Expression.cs:23-26 | an expression becomes an expression criteria, and a group is unwrapped first |
| CriteriaTree.ToCriteriaParameters | JimTaylor1974.FilterParser/Expression.cs:109-117 | unwrapping a group in `ToCriteria` keeps the parameters |
| CriteriaTree.ToCriteriaText | JimTaylor1974.FilterParser/Expression.cs:109-112 | unwrapping drops exactly the group's parentheses from the text |
| CriteriaTree.CriteriaOccurrencesOfConstructions | JimTaylor1974.FilterParser/Criteria.cs:12-28 | a new criteria holds no parameter, an expression criteria those of its expression, and `Add` appends the child's |
| CriteriaTree.ToCriteriaOccurrences | JimTaylor1974.FilterParser/Expression.cs:23-26 | unwrapping groups keeps every parameter the expression holds |
| CriteriaTree.AllParametersUnique | JimTaylor1974.FilterParser/Criteria.cs:102-121 | when no two parameters a criteria tree holds share a name, no two that `GetAllParameters` lists do, and each is one the tree holds |
| CriteriaTree.DistinctByNameOfUnique | JimTaylor1974.FilterParser/Criteria.cs:87-100 | `GetDistinctParameters` drops nothing from a list in which no two parameters share a name |
| OperatorBuilders.OperatorBuilder.constructor | JimTaylor1974.FilterParser/OperatorBuilder.cs:12-16 | a new builder has no fragments |
| OperatorBuilders.OperatorBuilder.Add | JimTaylor1974.FilterParser/OperatorBuilder.cs:38-41 | `Add` appends one fragment |
| OperatorBuilders.OperatorBuilder.ToExpression | JimTaylor1974.FilterParser/OperatorBuilder.cs:43-130 | the loop and its recursive builders compute the assignment function on the fragments |
| OperatorBuilders.Parse | JimTaylor1974.FilterParser/OperatorBuilder.cs:18-36 | an unparsed fragment fails and names the token, the operator and the operand position; every other fragment passes unchanged |
| OperatorBuilders.Slot | JimTaylor1974.FilterParser/OperatorBuilder.cs:132-139 | an empty operand is null; any other operand is an expression of its fragments |
| OperatorBuilders.OperatorExpression | JimTaylor1974.FilterParser/OperatorBuilder.cs:132-139 | the anchor and the three operand slots make an operator expression |
| OperatorBuilders.FirstOperatorMeans | JimTaylor1974.FilterParser/OperatorBuilder.cs:45 | the anchor is the first operator fragment; there is none exactly when no fragment is an operator |
| OperatorBuilders.ReentryReducesOperators | JimTaylor1974.FilterParser/OperatorBuilder.cs:83-101 | re-entry with a different operator leaves fewer operators for the new builder, so the recursion ends |
| OperatorBuilderProperties.BuildExprOutcome | JimTaylor1974.FilterParser/OperatorBuilder.cs:43-130 | "missing operation" happens exactly when there is no operator; otherwise the build succeeds exactly when no fragment is unparsed, and a failure names the first unparsed token |
| OperatorBuilderProperties.BuildExprSucceeds | JimTaylor1974.FilterParser/OperatorBuilder.cs:43-130 | `ToExpression` succeeds if and only if some fragment is an operator and none is unparsed |
| OperatorBuilderProperties.SlotContents | JimTaylor1974.FilterParser/OperatorBuilder.cs:77-120 | operands never hold commas or the anchor, only fragments from the input |
| OperatorBuilderProperties.SlotsPartition | JimTaylor1974.FilterParser/OperatorBuilder.cs:103-120 | the three function operands together hold every fragment that is neither a comma nor the anchor |
| OperatorBuilderProperties.InfixSlots | JimTaylor1974.FilterParser/OperatorBuilder.cs:57-125 | for an infix anchor and no other operator, everything before the anchor is the left operand and everything after it but commas is the right operand |
| OperatorBuilderProperties.InfixReentry | JimTaylor1974.FilterParser/OperatorBuilder.cs:83-101 | a different operator after an infix anchor hands the expression built so far, then the rest, to a new builder |
| OperatorBuilderProperties.FunctionSlots | JimTaylor1974.FilterParser/OperatorBuilder.cs:103-120 | for a function anchor, fragments after 0, 1, or 2 and more commas go to the left, right and third operand |
| OperatorBuilderProperties.FunctionReentry | JimTaylor1974.FilterParser/OperatorBuilder.cs:83-101 | a different operator after a function anchor hands the call built so far, then the rest, to a new builder |
| OperatorBuilderProperties.AssignOccurrences | JimTaylor1974.FilterParser/OperatorBuilder.cs:57-129 | from any point of the loop, a successful build is an operator expression holding the parameters of the operands filled so far and then of the fragments left, in order |
| OperatorBuilderProperties.BuildExprOccurrences | JimTaylor1974.FilterParser/OperatorBuilder.cs:43-130 | a successful `ToExpression` is an operator expression holding exactly the parameters of its fragments, in order: none is dropped, repeated or moved |
| SyntaxTrees.AddChildTo | JimTaylor1974.FilterParser/Criteria.Parse.cs:455-460 | `AddChild` adds a node at the end, with the given parent, appends it to the parent's children, and leaves every other node alone |
| SyntaxTrees.AddChildKeepsArena | JimTaylor1974.FilterParser/Criteria.Parse.cs:455-460 | adding a child keeps every link inside the tree, with children after their parents |
| SyntaxTrees.Arena.AddChild | JimTaylor1974.FilterParser/Criteria.Parse.cs:455-460 | the in-place `AddChild` updates the nodes as `AddChildTo` says and returns the new index |
| SyntaxTrees.Start | JimTaylor1974.FilterParser/Criteria.Parse.cs:54-55 | the loop starts with a root and a first cursor child |
| SyntaxTrees.Arena.constructor | JimTaylor1974.FilterParser/Criteria.Parse.cs:54-55 | a new arena holds the root and the first cursor |
| SyntaxTrees.BinaryGroupFromMeans | JimTaylor1974.FilterParser/Criteria.Parse.cs:183-204 | as written, a group is binary if and only if an `and` occurs anywhere after the `(`, even outside the group, or an `or` occurs at nesting 0 |
| SyntaxTrees.IsBinaryGroup | JimTaylor1974.FilterParser/Criteria.Parse.cs:183-204 | the nesting-counter loop computes that scan |
| SyntaxTrees.OpenFunction | JimTaylor1974.FilterParser/Criteria.Parse.cs:64-77 | `(` after a function name moves the name into a new `Function` child, which becomes the cursor; the tree stays well formed |
| SyntaxTrees.OpenGroup | JimTaylor1974.FilterParser/Criteria.Parse.cs:78-86 | any other `(` opens a group with a new cursor inside it; the tree stays well formed |
| SyntaxTrees.CloseParen | JimTaylor1974.FilterParser/Criteria.Parse.cs:90-105 | `)` continues in a sibling of a function cursor, or under the great-grandparent of any other cursor, and fails on a missing ancestor |
| SyntaxTrees.Connective | JimTaylor1974.FilterParser/Criteria.Parse.cs:107-115 | `and`/`or` adds a marker and a new cursor under the cursor's parent |
| SyntaxTrees.Append | JimTaylor1974.FilterParser/Criteria.Parse.cs:117-120 | any other token is appended to the cursor's tokens |
| SyntaxTrees.Step | JimTaylor1974.FilterParser/Criteria.Parse.cs:62-121 | one pass of the loop keeps the tree well formed |
| SyntaxTrees.Arena.OpenFunctionAt | JimTaylor1974.FilterParser/Criteria.Parse.cs:64-77 | the in-place case computes `OpenFunction` |
| SyntaxTrees.Arena.OpenGroupAt | JimTaylor1974.FilterParser/Criteria.Parse.cs:78-86 | the in-place case computes `OpenGroup` |
| SyntaxTrees.Arena.CloseParenAt | JimTaylor1974.FilterParser/Criteria.Parse.cs:90-105 | the in-place case computes `CloseParen` |
| SyntaxTrees.Arena.ConnectiveAt | JimTaylor1974.FilterParser/Criteria.Parse.cs:107-115 | the in-place case computes `Connective` |
| SyntaxTrees.Arena.AppendAt | JimTaylor1974.FilterParser/Criteria.Parse.cs:117-120 | the in-place case computes `Append` |
| SyntaxTrees.Arena.StepAt | JimTaylor1974.FilterParser/Criteria.Parse.cs:62-121 | the loop body updates the nodes as `Step` says |
| SyntaxTrees.RunFailureStep | JimTaylor1974.FilterParser/Criteria.Parse.cs:57-122 | once the loop raises, later tokens do not change the outcome |
| SyntaxTrees.CollectedAreEmptyLeaves | JimTaylor1974.FilterParser/Criteria.Parse.cs:386-399 | the scan queues only nodes with a parent, no children and no tokens |
| SyntaxTrees.CollectExactly | JimTaylor1974.FilterParser/Criteria.Parse.cs:386-399 | on a linked tree the scan from the root queues exactly the non-root nodes with no children and no tokens |
| SyntaxTrees.Arena.CleanupNodes | JimTaylor1974.FilterParser/Criteria.Parse.cs:386-399 | the recursive scan appends the queued nodes in tree order |
| SyntaxTrees.RemoveFirstMembers | JimTaylor1974.FilterParser/Criteria.Parse.cs:390 | `List.Remove` drops only the removed child |
| SyntaxTrees.RemoveFirstExactly | JimTaylor1974.FilterParser/Criteria.Parse.cs:390 | on a list without repeats, `List.Remove` drops exactly the node removed and leaves no repeat |
| SyntaxTrees.RemoveChildExactly | JimTaylor1974.FilterParser/Criteria.Parse.cs:390 | one queued action drops the node from its parent's children and changes nothing else |
| SyntaxTrees.RemoveAllKeeps | JimTaylor1974.FilterParser/Criteria.Parse.cs:378-381 | running the queued actions drops exactly the queued nodes from their parents' children and keeps the back-links |
| SyntaxTrees.PrunedKeeps | JimTaylor1974.FilterParser/Criteria.Parse.cs:372-399 | on a linked tree the cleanup removes exactly the queued children, so a child stays exactly when it has children or tokens; every node keeps its type, parent and tokens, and the tree stays well formed |
| SyntaxTrees.Arena.GetRootNode | JimTaylor1974.FilterParser/Criteria.Parse.cs:372-384 | the in-place cleanup computes the pruned tree |
| SyntaxTrees.SyntaxTree | JimTaylor1974.FilterParser/Criteria.Parse.cs:52-128 | when the token loop completes, the tree is well formed |
| SyntaxTrees.BuildTree | JimTaylor1974.FilterParser/Criteria.Parse.cs:52-128 | the token loop and the cleanup compute `SyntaxTree` |
| SyntaxTreeProperties.RunKeeps | JimTaylor1974.FilterParser/Criteria.Parse.cs:62-121 | after any prefix of the tokens, the tree stores each token read so far exactly once, except the parentheses; the `RemoveAt` of a function name never fails |
| SyntaxTreeProperties.AddChildLinked | JimTaylor1974.FilterParser/Criteria.Parse.cs:455-460 | `AddChild` sets the new node's parent and lists it once in the parent's children, so every child list names each node once and each named node has that parent |
| SyntaxTreeProperties.StepLinked | JimTaylor1974.FilterParser/Criteria.Parse.cs:62-121 | one pass of the token loop keeps the tree linked |
| SyntaxTreeProperties.RunLinked | JimTaylor1974.FilterParser/Criteria.Parse.cs:57-122 | after any prefix of the tokens, the tree the loop has built is linked |
| SyntaxTreeProperties.SyntaxTreeCleaned | JimTaylor1974.FilterParser/Criteria.Parse.cs:52-126 | the compiled tree is the loop's linked tree with exactly its childless, token-less non-root nodes unlinked from their parents |
| SyntaxTrees.LinkedMeans | JimTaylor1974.FilterParser/Criteria.Parse.cs:455-460 | a tree is linked exactly when each node's children have it as parent, none is listed twice, and each node with a parent is listed by it |
| CriteriaParse.TokenToSqlFragment | JimTaylor1974.FilterParser/Criteria.Parse.cs:258-315 | classifying a token moves the counter on by at most one |
| CriteriaParseProperties.OperatorComesFirst | JimTaylor1974.FilterParser/Criteria.Parse.cs:262-267 | a registered keyword is always the operator, whatever the callbacks say |
| CriteriaParse.TokenToSqlFragmentMeans | JimTaylor1974.FilterParser/Criteria.Parse.cs:258-315 | only a quoted string shorter than two characters fails; the counter moves on exactly when a parameter is made, and that parameter takes the counter's name; an unparsed fragment holds its token |
| CriteriaParseProperties.QuotedStringValue | JimTaylor1974.FilterParser/Criteria.Parse.cs:274-278 | a quoted string becomes the next parameter, holding the text between the outer characters |
| CriteriaParseProperties.UnparsedMeans | JimTaylor1974.FilterParser/Criteria.Parse.cs:258-315 | a token stays unparsed if and only if it is not an operator and no operand reading applies |
| CriteriaParse.TokenFragmentsShape | JimTaylor1974.FilterParser/Criteria.Parse.cs:342-370 | each node's tokens give one fragment per token, and the counter never goes back |
| CriteriaParseProperties.TokenFragmentsNames | JimTaylor1974.FilterParser/Criteria.Parse.cs:342-370 | the parameters made from a token list are named `FilterN` for consecutive counter values, in order |
| CriteriaParseProperties.NameRangeDistinct | JimTaylor1974.FilterParser/Criteria.Parse.cs:342-370 | consecutive counter values give pairwise different parameter names |
| CriteriaParseProperties.ParameterNameInjective | JimTaylor1974.FilterParser/Criteria.Parse.cs:342-370 | different counter values give different names |
| CriteriaParse.Flatten | JimTaylor1974.FilterParser/Criteria.Parse.cs:342-370 | flattening a node never moves the counter back |
| CriteriaParse.ToExpression | JimTaylor1974.FilterParser/Criteria.Parse.cs:238-256 | building an expression from nodes never moves the counter back |
| CriteriaParseProperties.ToExpressionShape | JimTaylor1974.FilterParser/Criteria.Parse.cs:238-256 | the expression of a node list is a group exactly when the nodes flatten to a lone group, which it then is; otherwise it is the builder's operator expression over the fragments, and a builder error fails the compile |
| CriteriaParseProperties.FlattenShape | JimTaylor1974.FilterParser/Criteria.Parse.cs:342-370 | a `Group` node flattens to one group expression; any other node to one fragment per token, in order, followed by exactly the fragments of its children, with the counter the children hand back |
| CriteriaParseProperties.FlattenNames | JimTaylor1974.FilterParser/Criteria.Parse.cs:342-370 | the parameters a node flattens to are named `FilterN` for consecutive counter values from the counter given to the one handed back, in fragment order |
| CriteriaParseProperties.ChildFragmentsNames | JimTaylor1974.FilterParser/Criteria.Parse.cs:356-369 | the same for the fragments one child contributes |
| CriteriaParseProperties.FlattenChildrenNames | JimTaylor1974.FilterParser/Criteria.Parse.cs:356-369 | the same for all the children, one after the other |
| CriteriaParseProperties.FlattenAllNames | JimTaylor1974.FilterParser/Criteria.Parse.cs:241 | the same for `SelectMany` over a node list |
| CriteriaParseProperties.ToExpressionNames | JimTaylor1974.FilterParser/Criteria.Parse.cs:238-256 | the expression of a node list holds parameters named `FilterN` for consecutive counter values, in order |
| CriteriaParse.NodesToExpression | JimTaylor1974.FilterParser/Criteria.Parse.cs:238-256 | the loop that feeds the builder computes `ToExpression` |
| CriteriaParse.GroupNode | JimTaylor1974.FilterParser/Criteria.Parse.cs:218-236 | the descent moves only from a token-less node without a marker child to its only child, and stops at the first node on that path with tokens, a marker child, or other than one child |
| CriteriaParseProperties.GroupNodeUnique | JimTaylor1974.FilterParser/Criteria.Parse.cs:218-236 | whichever node on the only-child path from the start is a stopping node, it is the one the descent returns |
| CriteriaParse.FirstBinary | JimTaylor1974.FilterParser/Criteria.Parse.cs:137-167 | there is no marker exactly when no child is `Binary`; otherwise it returns a `Binary` child |
| CriteriaParse.FirstBinaryIsFirst | JimTaylor1974.FilterParser/Criteria.Parse.cs:137-167 | the returned marker is the first `Binary` child: no child before it is a marker |
| CriteriaParse.Connective | JimTaylor1974.FilterParser/Criteria.Parse.cs:137-167 | the marker's token `and` gives `And`, and anything else gives `Or` |
| CriteriaParse.BuildCriteria | JimTaylor1974.FilterParser/Criteria.Parse.cs:130-174 | compiling a node gives a non-empty criteria and never moves the counter back |
| CriteriaParseProperties.BuildCriteriaNames | JimTaylor1974.FilterParser/Criteria.Parse.cs:130-174 | the criteria compiled from a node holds parameters named `FilterN` for consecutive counter values from the counter given to the one handed back, depth-first in child order |
| CriteriaParseProperties.ExpressionCriteriaNames | JimTaylor1974.FilterParser/Criteria.Parse.cs:172-173 | the same for an expression criteria |
| CriteriaParseProperties.RunCriteriaNames | JimTaylor1974.FilterParser/Criteria.Parse.cs:206-216 | the same for the criteria of one run |
| CriteriaParseProperties.CreateFromNodesNames | JimTaylor1974.FilterParser/Criteria.Parse.cs:206-216 | adding a run's criteria continues the names after those the criteria already holds |
| CriteriaParseProperties.AddRunsNames | JimTaylor1974.FilterParser/Criteria.Parse.cs:145-165 | the marker loop's children continue the names run by run |
| CriteriaParse.CreateFromNodes | JimTaylor1974.FilterParser/Criteria.Parse.cs:206-216 | adding a run keeps the criteria's type and expression |
| CriteriaParse.CreateCriteriaFromNodes | JimTaylor1974.FilterParser/Criteria.Parse.cs:206-216 | the method computes `CreateFromNodes` |
| CriteriaParse.CompileNode | JimTaylor1974.FilterParser/Criteria.Parse.cs:130-174 | the method computes `BuildCriteria` |
| CriteriaParseProperties.RunsPartition | JimTaylor1974.FilterParser/Criteria.Parse.cs:145-165 | joined back together, the runs are exactly the group's non-marker children, in order |
| CriteriaParseProperties.RunsUnmarked | JimTaylor1974.FilterParser/Criteria.Parse.cs:145-165 | no run is empty, and no run holds a marker |
| CriteriaParseProperties.AddRunsIsAddAll | JimTaylor1974.FilterParser/Criteria.Parse.cs:145-165 | the marker loop adds its runs in order |
| CriteriaParseProperties.AddAllShape | JimTaylor1974.FilterParser/Criteria.Parse.cs:206-216 | adding runs keeps the type, the expression and the earlier children, and adds one child per run |
| CriteriaParseProperties.AddAllChildren | JimTaylor1974.FilterParser/Criteria.Parse.cs:206-216 | the child added for run `j` is the criteria compiled from that run, with the counter handed from run to run and ending at the counter handed back |
| CriteriaParseProperties.BinaryGroupCriteria | JimTaylor1974.FilterParser/Criteria.Parse.cs:137-167 | a binary group with a marker compiles to the first marker's connective, with no expression and one child per run, each the criteria compiled from its run with the counter handed on; the runs hold exactly the non-marker children, in order |
| CriteriaParse.Compile | JimTaylor1974.FilterParser/Criteria.Parse.cs:52-128 | a compiled token list gives a non-empty criteria |
| CriteriaParseProperties.CompileNames | JimTaylor1974.FilterParser/Criteria.Parse.cs:52-128 | a compiled filter's parameters are named `Filter0`, `Filter1`, ... in the order the tree holds them, so `GetAllParameters` lists each under a name of its own and `GetDistinctParameters` drops none |
| CriteriaParseProperties.WrapParenthesised | JimTaylor1974.FilterParser/Criteria.Parse.cs:29-32 | the tokenizer always sees a text that starts with `(` and ends with `)`, and an already wrapped text is not wrapped again |
| CriteriaParseProperties.WrapIdempotent | JimTaylor1974.FilterParser/Criteria.Parse.cs:29-32 | wrapping twice is the same as wrapping once |
| CriteriaParseProperties.ParseEmptyIffBlank | JimTaylor1974.FilterParser/Criteria.Parse.cs:23-50 | a blank or null filter gives the empty criteria, and only a blank or null filter does |
| CriteriaParse.Parse | JimTaylor1974.FilterParser/Criteria.Parse.cs:23-50 | the method wraps, tokenizes, builds the tree and compiles it, and propagates the first exception |
| CriteriaParse.TryParse | JimTaylor1974.FilterParser/Criteria.Parse.cs:9-21 | it returns true and the criteria exactly when `Parse` completes, and false and null on a parse error; any other exception passes through |

## Left out

- The tokenizer (`StringTokenizer`) is not part of this model. `Parse` takes it as a parameter from text to tokens.
- `GetValueAsNumber` (Criteria.Parse.cs:317-340) relies on .NET numeric parsing, so it is a callback `number` in `Resolvers`. Only the order in which `TokenToSqlFragment` tries the readings is modelled. `resolveField` and `resolveConstant` are callbacks too.
- The operator registry is built by reflection over the assembly. The model writes it out as a table in declaration order, from the operator classes and their attributes. `OperatorAttribute.For` and `NotImplementedAttribute.For` (reflection) are left out. So is the order of `GetTypes()`: the model assumes declaration order, which only affects the order of `FunctionNames`.
- `Dictionary` value order, used in `GetDistinctParameters`, is taken to be insertion order.
- Case-insensitive comparison and `ToLowerInvariant` fold ASCII letters only.
- `ToSqlLiteral`: DateTime, DateTimeOffset, Guid and numeric formatting are not modelled. Such values are `Other` and carry the text they print as.
- The `Expression` class with `string.Format` (Expression.cs:120-134) is not produced by the compiler, and is left out.
- `Debug.WriteLine`, `Node.ToString`/`DumpXml`, `ConversionExtensions.cs`, `JValueTypeConverter.cs` and the console app are left out, because they do not affect a result.
- `Comma.cs` and `Counter.cs` are not part of this model. A comma fragment prints as `,`. The counter is a `nat` threaded through the compiler.
- Counter: 32-bit overflow of `Counter.Next()` is not modelled.
- Criteria are immutable values. `Add` returns `this` in the source; the model returns the extended criteria, so aliasing of a criteria shared by two parents is not captured.
- Parameter identity is by value. `Union` compares parameters with `Equals`, which for `Parameter` is reference equality; the model uses structural equality.
- Node references are indices into an arena, where a child always comes after its parent.
- The lazy `yield` of `GetAllParameters` and `Flatten` is computed eagerly.
- The `)` case as written: a cursor whose great-grandparent is missing makes the source dereference null. The model returns `NullReference` in that case.
- `IsBinaryGroup` is modelled as written: the condition parses as `(nesting == 0 && or) || and`, so an `and` anywhere after the `(` makes the group binary. `SyntaxTrees.BinaryGroupFromMeans` states this.
- CriteriaTree.ToText: `ToString()` without a syntax argument (Criteria.cs:155-158) is the same function at `Sql`, and has no member of its own.
