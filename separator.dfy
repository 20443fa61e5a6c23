/** A separator that yields nothing on its first use and the separator text afterwards (Separator.cs). */
module Separators {

  import opened Strings

  class Separator {
    const separator: string
    var first: bool
    /** The number of calls to `Value` so far. */
    ghost var calls: nat

    ghost predicate Valid()
      reads this
    {
      first <==> calls == 0
    }

    constructor (separator: string)
      ensures Valid() && this.separator == separator && first && calls == 0
    {
      this.separator := separator;
      first := true;
      calls := 0;
    }

    /** The empty string on the first call, the separator on every later one; `first` never becomes true again. */
    method Value() returns (r: string)
      requires Valid()
      modifies this
      ensures Valid() && calls == old(calls) + 1 && !first
      ensures r == if old(first) then "" else separator
    {
      if first {
        first := false;
        calls := calls + 1;
        return "";
      }
      calls := calls + 1;
      return separator;
    }
  }

  /** The concatenation of the results of `n` calls is the separator repeated `n - 1` times. */
  method ConcatenatedValues(sep: string, n: nat) returns (s: string)
    requires n >= 1
    ensures s == Repeat(sep, n - 1)
  {
    var separator := new Separator(sep);
    s := "";
    var i := 0;
    while i < n
      invariant 0 <= i <= n && separator.Valid() && separator.calls == i
      invariant separator.separator == sep
      invariant s == if i == 0 then "" else Repeat(sep, i - 1)
    {
      var v := separator.Value();
      s := s + v;
      i := i + 1;
    }
  }
}
