/** A named bound parameter and its placeholder text (Parameter.cs). */
module Parameters {

  import opened Values
  import opened Rendering

  /** An immutable parameter; `NullValue` is a parameter built without a value. */
  datatype Parameter = Parameter(name: string, value: Value)

  /** The one-argument constructor: the value stays null. */
  function NewParameter(name: string): (p: Parameter)
    ensures p.name == name && p.value == NullValue
  {
    Parameter(name, NullValue)
  }

  /** The two-argument constructor. */
  function NewParameterWithValue(name: string, value: Value): (p: Parameter)
    ensures p.name == name && p.value == value
  {
    Parameter(name, value)
  }

  /** The names of a parameter list, in order. */
  function Names(ps: seq<Parameter>): (r: seq<string>)
    ensures |r| == |ps| && forall i :: 0 <= i < |ps| ==> r[i] == ps[i].name
  {
    seq(|ps|, i requires 0 <= i < |ps| => ps[i].name)
  }

  lemma {:induction false} NamesAppend(a: seq<Parameter>, b: seq<Parameter>)
    ensures Names(a + b) == Names(a) + Names(b)
  {
    assert forall i :: 0 <= i < |a + b| ==> Names(a + b)[i] == (Names(a) + Names(b))[i];
  }

  /** No two parameters of the list share a name. */
  predicate UniqueNames(ps: seq<Parameter>) {
    forall i, j :: 0 <= i < j < |ps| ==> ps[i].name != ps[j].name
  }

  /** `ToString(syntax)`: `?` for SqlKata, `@` and the name for every other dialect. */
  function ToString(p: Parameter, syntax: Syntax): (r: string)
    ensures syntax == SqlKata ==> r == "?"
    ensures syntax != SqlKata ==> r == "@" + p.name
  {
    if syntax == SqlKata then "?" else "@" + p.name
  }

  /** The placeholder never depends on the value. */
  lemma {:induction false} ToStringIgnoresValue(name: string, v1: Value, v2: Value, syntax: Syntax)
    ensures ToString(Parameter(name, v1), syntax) == ToString(Parameter(name, v2), syntax)
  {
  }

  /** Outside SqlKata, two parameters get the same placeholder exactly when they have the same name. */
  lemma {:induction false} PlaceholderDeterminesName(p: Parameter, q: Parameter, syntax: Syntax)
    requires syntax != SqlKata
    ensures ToString(p, syntax) == ToString(q, syntax) <==> p.name == q.name
  {
    if ToString(p, syntax) == ToString(q, syntax) {
      assert ("@" + p.name)[1..] == p.name;
      assert ("@" + q.name)[1..] == q.name;
    }
  }
}
