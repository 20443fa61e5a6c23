/** A bracket-quoted column reference (Identifier.cs). */
module Identifiers {

  import opened Extensions

  /** The text computed at construction; `ToString()` returns it unchanged. */
  datatype Identifier = Identifier(text: string) {
    function ToString(): string { text }
  }

  /** `Identifier(fieldName)`: the bracket-quoted field name. */
  function FromField(fieldName: string): (id: Identifier)
    ensures id.ToString() == SurroundWithSquareBrackets(fieldName)
  {
    Identifier(SurroundWithSquareBrackets(fieldName))
  }

  /** `Identifier(nameOrAlias, fieldName)`: bracketed qualifier, `.`, bracketed field. */
  function FromQualified(nameOrAlias: string, fieldName: string): (id: Identifier)
    ensures id.ToString() == SurroundWithSquareBrackets(nameOrAlias) + "." + SurroundWithSquareBrackets(fieldName)
  {
    Identifier(SurroundWithSquareBrackets(nameOrAlias) + "." + SurroundWithSquareBrackets(fieldName))
  }

  /** A name that is already bracketed gives the same identifier as the bare name. */
  lemma {:induction false} FromFieldOfBracketed(fieldName: string)
    ensures FromField(SurroundWithSquareBrackets(fieldName)) == FromField(fieldName)
  {
    SurroundWithSquareBracketsIdempotent(fieldName);
  }

  lemma {:induction false} FromQualifiedOfBracketed(nameOrAlias: string, fieldName: string)
    ensures FromQualified(SurroundWithSquareBrackets(nameOrAlias), SurroundWithSquareBrackets(fieldName))
         == FromQualified(nameOrAlias, fieldName)
  {
    SurroundWithSquareBracketsIdempotent(nameOrAlias);
    SurroundWithSquareBracketsIdempotent(fieldName);
  }
}
