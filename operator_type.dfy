/** The `[Flags]` enumeration of operator kinds (OperatorType.cs) and `Enum.HasFlag`. */
module OperatorTypes {

  type OperatorType = bv8

  const Unknown: OperatorType := 0
  const Whitespace: OperatorType := 1
  const Binary: OperatorType := 2
  const Logical: OperatorType := 4
  const Arithmetic: OperatorType := 8
  const Grouping: OperatorType := 16
  const Function: OperatorType := 32
  const Literal: OperatorType := 64

  /** `Enum.HasFlag`: every bit of `flag` is set in `t`. */
  predicate HasFlag(t: OperatorType, flag: OperatorType) {
    t & flag == flag
  }

  /** On the single-flag kinds the registry uses, `HasFlag(Function)` is equality with `Function`. */
  lemma {:induction false} HasFunctionFlagOfSingleKind(t: OperatorType)
    requires t in {Unknown, Whitespace, Binary, Logical, Arithmetic, Grouping, Function, Literal}
    ensures HasFlag(t, Function) <==> t == Function
  {
  }

  /** Every kind has the empty flag. */
  lemma {:induction false} HasUnknownFlag(t: OperatorType)
    ensures HasFlag(t, Unknown)
  {
  }
}
