/**
 * The C# objects the compiler stores as parameter values. `NullValue` is
 * C# null; `DateTimeValue` and `GuidValue` carry the text their .NET
 * formatting produces; `Other` is any other object, by its `ToString()`.
 */
module Values {

  datatype Value =
    | NullValue
    | DbNull
    | Str(s: string)
    | Bool(b: bool)
    | DateTimeValue(formatted: string)
    | GuidValue(formatted: string)
    | Other(text: string)
}
