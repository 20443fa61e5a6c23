/**
 * String and literal helpers of the SQL renderer (Extensions.cs): quote
 * escaping, quoting, bracket-quoting of dotted names, bit and literal
 * rendering, and the SQL type name of a `DbType`.
 */
module Extensions {

  import opened Wrappers
  import opened Strings
  import opened Values

  const Quote: string := "'"
  const DoubledQuote: string := "''"
  const Brackets: set<char> := {'[', ']'}

  /** Reference definition of quote escaping: each `'` becomes `''`, every other character stays. */
  function DoubleQuotes(s: string): (r: string)
    ensures |r| >= |s|
  {
    if s == [] then ""
    else (if s[0] == '\'' then DoubledQuote else [s[0]]) + DoubleQuotes(s[1..])
  }

  /** Undoes `DoubleQuotes`: each `''` becomes `'`. */
  function UndoubleQuotes(s: string): string
  {
    if |s| >= 2 && s[0] == '\'' && s[1] == '\'' then Quote + UndoubleQuotes(s[2..])
    else if s == [] then ""
    else [s[0]] + UndoubleQuotes(s[1..])
  }

  /** `EscapeSingleQuotes`: null stays null; otherwise `Replace("'", "''")`. */
  function EscapeSingleQuotes(s: Option<string>): (r: Option<string>)
    ensures s.None? <==> r.None?
  {
    match s
    case None => None
    case Some(t) => Some(ReplaceAll(t, Quote, DoubledQuote))
  }

  /** The ordinal replacement of `'` by `''` doubles every quote and nothing else. */
  lemma {:induction false} ReplaceQuoteIsDoubling(s: string)
    ensures ReplaceAll(s, Quote, DoubledQuote) == DoubleQuotes(s)
  {
    if s != [] {
      ReplaceQuoteIsDoubling(s[1..]);
      if s[0] != '\'' {
        assert s[..1] != Quote;
      }
    }
  }

  lemma {:induction false} UndoubleDoubled(s: string)
    ensures UndoubleQuotes(DoubleQuotes(s)) == s
  {
    if s != [] {
      UndoubleDoubled(s[1..]);
      var rest := DoubleQuotes(s[1..]);
      if s[0] == '\'' {
        assert DoubleQuotes(s) == DoubledQuote + rest;
        assert (DoubledQuote + rest)[2..] == rest;
      } else {
        assert DoubleQuotes(s) == [s[0]] + rest;
        assert ([s[0]] + rest)[1..] == rest;
      }
    }
  }

  /** Escaping a string and then undoing the doubling gives the string back. */
  lemma {:induction false} EscapeRoundTrip(s: string)
    ensures EscapeSingleQuotes(Some(s)).Some?
    ensures UndoubleQuotes(EscapeSingleQuotes(Some(s)).value) == s
  {
    ReplaceQuoteIsDoubling(s);
    UndoubleDoubled(s);
  }

  /** `SurroundWithSingleQuotes`: exactly one quote added at each end. */
  function SurroundWithSingleQuotes(s: string): (r: string)
    ensures |r| == |s| + 2 && r[0] == '\'' && r[|r| - 1] == '\''
    ensures r[1..|r| - 1] == s
  {
    Quote + s + Quote
  }

  /** Brackets one dotted segment after trimming brackets from its ends. */
  function BracketSegment(p: string): (r: string)
    ensures |r| >= 2 && r[0] == '[' && r[|r| - 1] == ']'
  {
    "[" + Trim(p, Brackets) + "]"
  }

  function BracketSegments(ps: seq<string>): (r: seq<string>)
    ensures |r| == |ps|
    ensures forall i :: 0 <= i < |ps| ==> r[i] == BracketSegment(ps[i])
  {
    if ps == [] then [] else [BracketSegment(ps[0])] + BracketSegments(ps[1..])
  }

  /**
   * `SurroundWithSquareBrackets`: `*` is returned as it is; otherwise the
   * non-empty `.`-separated segments are each trimmed of `[`/`]`, bracketed
   * and joined again with `.`.
   */
  function SurroundWithSquareBrackets(s: string): string
  {
    if s == "*" then s
    else Join(BracketSegments(RemoveEmpty(Split(s, '.'))), '.')
  }

  /** Trimming a bracketed, already-trimmed segment gives the segment back. */
  lemma {:induction false} TrimBracketed(t: string)
    requires t == [] || (t[0] !in Brackets && t[|t| - 1] !in Brackets)
    ensures Trim("[" + t + "]", Brackets) == t
  {
    var v := t + "]";
    assert "[" + t + "]" == ['['] + v;
    TrimStartDrops('[', v, Brackets);
    if t == [] {
      assert v == [']'] + [];
      TrimStartDrops(']', [], Brackets);
    } else {
      assert v[0] == t[0];
      TrimStartClean(v, Brackets);
      TrimEndDrops(t, ']', Brackets);
      TrimEndClean(t, Brackets);
    }
  }

  /** Segments produced by bracketing have no `.` in them, and re-bracketing leaves them as they are. */
  lemma {:induction false} BracketSegmentsStable(ps: seq<string>)
    requires forall i :: 0 <= i < |ps| ==> '.' !in ps[i]
    ensures forall i :: 0 <= i < |ps| ==> '.' !in BracketSegments(ps)[i]
    ensures BracketSegments(BracketSegments(ps)) == BracketSegments(ps)
    decreases |ps|
  {
    if ps != [] {
      BracketSegmentsStable(ps[1..]);
      var t := Trim(ps[0], Brackets);
      TrimBracketed(t);
      assert '.' !in "[" + t + "]";
    }
  }

  /** `SurroundWithSquareBrackets` is idempotent: already-bracketed names are not bracketed twice. */
  lemma {:induction false} SurroundWithSquareBracketsIdempotent(s: string)
    ensures SurroundWithSquareBrackets(SurroundWithSquareBrackets(s)) == SurroundWithSquareBrackets(s)
  {
    if s != "*" {
      var ps := RemoveEmpty(Split(s, '.'));
      SplitPiecesAvoidSeparator(s, '.');
      BracketedJoinStable(ps);
    }
  }

  /** Joining bracketed dot-free segments gives a text that bracketing leaves unchanged. */
  lemma {:induction false} BracketedJoinStable(ps: seq<string>)
    requires forall i :: 0 <= i < |ps| ==> '.' !in ps[i]
    ensures SurroundWithSquareBrackets(Join(BracketSegments(ps), '.')) == Join(BracketSegments(ps), '.')
  {
    BracketSegmentsStable(ps);
    var qs := BracketSegments(ps);
    var r := Join(qs, '.');
    if qs == [] {
      assert r == "";
      assert Split(r, '.') == [""];
      assert RemoveEmpty([""]) == [];
    } else {
      JoinStartsWithFirst(qs, '.');
      assert r != "*";
      SplitJoin(qs, '.');
      RemoveEmptyOfNonEmpty(qs);
      calc {
        SurroundWithSquareBrackets(r);
        Join(BracketSegments(RemoveEmpty(Split(r, '.'))), '.');
        Join(BracketSegments(RemoveEmpty(qs)), '.');
        Join(BracketSegments(qs), '.');
        r;
      }
    }
  }

  lemma {:induction false} JoinStartsWithFirst(parts: seq<string>, sep: char)
    requires parts != [] && parts[0] != []
    ensures Join(parts, sep) != [] && Join(parts, sep)[0] == parts[0][0]
  {
  }

  /** `Convert.ToInt32(bool)`: `1` for true and `0` for false. */
  function BoolToInt32(b: bool): (i: int)
    ensures (i == 1 <==> b) && (i == 0 <==> !b)
  {
    if b then 1 else 0
  }

  /** `Math.Abs` on an integer. */
  function Abs(x: int): (r: int)
    ensures r >= 0 && (r == x || r == -x)
  {
    if x < 0 then -x else x
  }

  /** `ToSqlBit`: the absolute value of the boolean's integer, printed, is `1` for true and `0` for false. */
  function ToSqlBit(b: bool): (r: string)
    ensures r == (if b then "1" else "0")
  {
    IntToString(Abs(BoolToInt32(b)))
  }

  /** The members of `System.Data.DbType`; `Undefined` is any other integer an enum variable can hold. */
  datatype DbType =
    | AnsiString | Binary | Byte | Boolean | Currency | Date | DateTime | Decimal | Double | Guid
    | Int16 | Int32 | Int64 | Object | SByte | Single | String | Time | UInt16 | UInt32 | UInt64
    | VarNumeric | AnsiStringFixedLength | StringFixedLength | Xml | DateTime2 | DateTimeOffset
    | Undefined(code: int)

  /** The two exceptions `ToSqlType` throws. */
  datatype SqlTypeError = NotImplemented | NotSupported(message: string)

  function IntToString(n: int): (r: string)
    ensures r != []
  {
    if n < 0 then "-" + NatToString(-n) else NatToString(n)
  }

  /** `ToSqlType`: `INT` for `Int32`, `NotImplementedException` for every other member, `NotSupportedException` otherwise. */
  function ToSqlType(t: DbType): (r: Result<string, SqlTypeError>)
    ensures r.Success? <==> t == Int32
    ensures r.Success? ==> r.value == "INT"
    ensures r == Failure(NotImplemented) <==> (t != Int32 && !t.Undefined?)
    ensures t.Undefined? ==> r == Failure(NotSupported("Unsupported DbType " + IntToString(t.code)))
  {
    match t
    case Int32 => Success("INT")
    case Undefined(code) => Failure(NotSupported("Unsupported DbType " + IntToString(code)))
    case _ => Failure(NotImplemented)
  }

  /**
   * `ToSqlLiteral`: null and DBNull render as `NULL`, a string as its
   * escaped and quoted text, a bool as its bit, a date or GUID as its
   * formatted text in quotes, any other value as its `ToString()`.
   */
  function ToSqlLiteral(v: Value): (r: string)
    ensures (v.NullValue? || v.DbNull?) ==> r == "NULL"
    ensures v.Bool? ==> r == ToSqlBit(v.b)
    ensures v.Str? ==> |r| >= 2 && r[0] == '\'' && r[|r| - 1] == '\''
    ensures v.Other? ==> r == v.text
  {
    match v
    case NullValue => "NULL"
    case DbNull => "NULL"
    case Str(s) => SurroundWithSingleQuotes(EscapeSingleQuotes(Some(s)).value)
    case Bool(b) => ToSqlBit(b)
    case DateTimeValue(f) => SurroundWithSingleQuotes(f)
    case GuidValue(f) => SurroundWithSingleQuotes(f)
    case Other(text) => text
  }

  /** A string literal decodes back to the string: strip the outer quotes, then undo the doubling. */
  lemma {:induction false} StringLiteralRoundTrip(s: string)
    ensures var lit := ToSqlLiteral(Str(s)); UndoubleQuotes(lit[1..|lit| - 1]) == s
  {
    EscapeRoundTrip(s);
  }
}
