/**
 * The pieces of System.String that the filter compiler relies on, written
 * out over `seq<char>`: prefix tests, white space, ASCII case folding,
 * ordinal `Replace`, `Split`/`Join` on one character, `Trim` of a set of
 * characters, and the decimal rendering of a counter value.
 */
module Strings {

  import opened Wrappers

  predicate StartsWith(s: string, prefix: string) {
    |prefix| <= |s| && s[..|prefix|] == prefix
  }

  predicate EndsWith(s: string, suffix: string) {
    |suffix| <= |s| && s[|s| - |suffix|..] == suffix
  }

  /** `char.IsWhiteSpace`: the Unicode space, line and paragraph separators and the control characters U+0009-U+000D, U+0085. */
  predicate IsWhiteSpace(c: char) {
    c == ' ' || ('\t' <= c <= '\r') || c == '\U{85}' || c == '\U{A0}' || c == '\U{1680}'
    || ('\U{2000}' <= c <= '\U{200A}') || c == '\U{2028}' || c == '\U{2029}'
    || c == '\U{202F}' || c == '\U{205F}' || c == '\U{3000}'
  }

  /** `string.IsNullOrWhiteSpace`: null stands as None. */
  predicate IsNullOrWhiteSpace(s: Option<string>) {
    s.None? || forall i :: 0 <= i < |s.value| ==> IsWhiteSpace(s.value[i])
  }

  /** ASCII lower-casing, the case folding the model uses for case-insensitive comparisons. */
  function LowerChar(c: char): (r: char)
    ensures 'A' <= c <= 'Z' ==> r as int == c as int + 32
    ensures !('A' <= c <= 'Z') ==> r == c
  {
    if 'A' <= c <= 'Z' then (c as int + 32) as char else c
  }

  function Lower(s: string): (r: string)
    ensures |r| == |s|
    ensures forall i :: 0 <= i < |s| ==> r[i] == LowerChar(s[i])
  {
    if s == [] then [] else [LowerChar(s[0])] + Lower(s[1..])
  }

  /** Case-insensitive equality, as `StringComparer.InvariantCultureIgnoreCase` and `OrdinalIgnoreCase` apply it to ASCII text. */
  predicate EqualsIgnoreCase(a: string, b: string) {
    Lower(a) == Lower(b)
  }

  predicate HasNoUpper(s: string) {
    forall i :: 0 <= i < |s| ==> !('A' <= s[i] <= 'Z')
  }

  /** Lower-casing leaves a text without upper-case letters unchanged. */
  lemma {:induction false} LowerOfNoUpper(s: string)
    requires HasNoUpper(s)
    ensures Lower(s) == s
  {
  }

  /** True when `p` occurs in `s` at position `k`. */
  predicate OccursAt(s: string, p: string, k: nat) {
    k + |p| <= |s| && s[k..k + |p|] == p
  }

  predicate Contains(s: string, p: string) {
    exists k: nat :: k <= |s| && OccursAt(s, p, k)
  }

  /** Ordinal `String.Replace(pat, rep)`: every occurrence, left to right, without overlap. */
  function ReplaceAll(s: string, pat: string, rep: string): string
    requires pat != []
    decreases |s|
  {
    if |s| < |pat| then s
    else if s[..|pat|] == pat then rep + ReplaceAll(s[|pat|..], pat, rep)
    else [s[0]] + ReplaceAll(s[1..], pat, rep)
  }

  lemma {:induction false} ReplaceAllAbsent(s: string, pat: string, rep: string)
    requires pat != []
    requires !Contains(s, pat)
    ensures ReplaceAll(s, pat, rep) == s
    decreases |s|
  {
    if |s| >= |pat| {
      assert !OccursAt(s, pat, 0);
      assert s[..|pat|] != pat;
      forall k: nat | k <= |s[1..]| ensures !OccursAt(s[1..], pat, k) {
        if k + |pat| <= |s| - 1 {
          assert s[1..][k..k + |pat|] == s[k + 1..k + 1 + |pat|];
        }
        assert !OccursAt(s, pat, k + 1);
      }
      ReplaceAllAbsent(s[1..], pat, rep);
      assert [s[0]] + s[1..] == s;
    }
  }

  /**
   * Replacing in a concatenation is replacing in each part, provided no
   * occurrence can straddle the seam: the right part does not start with a
   * character of the pattern.
   */
  lemma {:induction false} ReplaceAllConcat(a: string, b: string, pat: string, rep: string)
    requires pat != []
    requires b == [] || b[0] !in pat
    ensures ReplaceAll(a + b, pat, rep) == ReplaceAll(a, pat, rep) + ReplaceAll(b, pat, rep)
    decreases |a|
  {
    var ab := a + b;
    if a == [] {
      assert ab == b;
    } else if StartsWith(ab, pat) {
      StartsWithAcrossSeam(a, b, pat);
      assert a[..|pat|] == ab[..|pat|];
      assert ab[|pat|..] == a[|pat|..] + b;
      ReplaceAllConcat(a[|pat|..], b, pat, rep);
    } else {
      assert !StartsWith(a, pat);
      assert ab[1..] == a[1..] + b;
      ReplaceAllCons(ab, pat, rep);
      ReplaceAllCons(a, pat, rep);
      ReplaceAllConcat(a[1..], b, pat, rep);
    }
  }

  lemma {:induction false} StartsWithAcrossSeam(a: string, b: string, pat: string)
    requires StartsWith(a + b, pat)
    ensures |a| < |pat| ==> b != [] && b[0] in pat
  {
    if |a| < |pat| {
      assert (a + b)[..|pat|][|a|] == b[0];
    }
  }

  /** Where the pattern does not start the text, the first character is kept. */
  lemma {:induction false} ReplaceAllCons(s: string, pat: string, rep: string)
    requires pat != [] && s != [] && !StartsWith(s, pat)
    ensures ReplaceAll(s, pat, rep) == [s[0]] + ReplaceAll(s[1..], pat, rep)
  {
    if |s| < |pat| {
      ReplaceAllAbsentShort(s[1..], pat, rep);
      assert [s[0]] + s[1..] == s;
    }
  }

  lemma {:induction false} ReplaceAllAbsentShort(s: string, pat: string, rep: string)
    requires pat != [] && |s| < |pat|
    ensures ReplaceAll(s, pat, rep) == s
  {
  }

  /** A prefix free of the pattern's first character passes through replacement untouched. */
  lemma {:induction false} ReplaceAllSkip(a: string, c: string, pat: string, rep: string)
    requires pat != [] && pat[0] !in a
    ensures ReplaceAll(a + c, pat, rep) == a + ReplaceAll(c, pat, rep)
    decreases |a|
  {
    if a != [] {
      var ac := a + c;
      assert ac[0] == a[0];
      assert !StartsWith(ac, pat);
      ReplaceAllCons(ac, pat, rep);
      assert ac[1..] == a[1..] + c;
      ReplaceAllSkip(a[1..], c, pat, rep);
      assert [a[0]] + a[1..] == a;
    } else {
      assert a + c == c;
    }
  }

  /** A text beginning with the pattern has its head replaced. */
  lemma {:induction false} ReplaceAllHead(c: string, pat: string, rep: string)
    requires pat != []
    ensures ReplaceAll(pat + c, pat, rep) == rep + ReplaceAll(c, pat, rep)
  {
    assert (pat + c)[..|pat|] == pat;
    assert (pat + c)[|pat|..] == c;
  }

  /**
   * A leading placeholder other than the pattern passes through: it differs
   * from the pattern at position `k`, and the pattern's first character
   * occurs nowhere else in the placeholder.
   */
  lemma {:induction false} ReplaceAllPassPlaceholder(q: string, c: string, pat: string, rep: string, k: nat)
    requires pat != [] && k < |q| && k < |pat| && q[k] != pat[k] && pat[0] !in q[1..]
    ensures ReplaceAll(q + c, pat, rep) == q + ReplaceAll(c, pat, rep)
  {
    var s := q + c;
    assert !StartsWith(s, pat) by {
      if |pat| <= |s| {
        assert s[..|pat|][k] == q[k];
      }
    }
    ReplaceAllCons(s, pat, rep);
    assert s[1..] == q[1..] + c;
    ReplaceAllSkip(q[1..], c, pat, rep);
    assert s[0] == q[0];
    assert [q[0]] + q[1..] == q;
  }

  /** The pattern after text free of its first character is replaced, and the scan goes on after it. */
  lemma {:induction false} ReplaceAllHole(x: string, y: string, pat: string, rep: string)
    requires pat != [] && pat[0] !in x
    ensures ReplaceAll(x + pat + y, pat, rep) == x + rep + ReplaceAll(y, pat, rep)
  {
    assert x + pat + y == x + (pat + y);
    ReplaceAllSkip(x, pat + y, pat, rep);
    ReplaceAllHead(y, pat, rep);
  }

  /** Replacing in a text that is exactly the pattern gives the replacement. */
  lemma {:induction false} ReplaceAllWhole(pat: string, rep: string)
    requires pat != []
    ensures ReplaceAll(pat, pat, rep) == rep
  {
    assert pat[..|pat|] == pat;
    assert pat[|pat|..] == [];
  }

  function Repeat(s: string, n: nat): (r: string)
    ensures |r| == n * |s|
  {
    if n == 0 then "" else Repeat(s, n - 1) + s
  }

  // ---- Split, Join and Trim on single characters ----

  /** `String.Split(sep)`: the pieces between separators, empty pieces kept; always at least one piece. */
  function Split(s: string, sep: char): (r: seq<string>)
    ensures |r| >= 1
    decreases |s|
  {
    if s == [] then [""]
    else
      var rest := Split(s[1..], sep);
      if s[0] == sep then [""] + rest else [[s[0]] + rest[0]] + rest[1..]
  }

  /** `string.Join(sep, parts)`. */
  function Join(parts: seq<string>, sep: char): string
    decreases |parts|
  {
    if parts == [] then ""
    else if |parts| == 1 then parts[0]
    else parts[0] + [sep] + Join(parts[1..], sep)
  }

  /** The parts with `sep` between neighbours: `string.Join` with a string separator. */
  function JoinWith(parts: seq<string>, sep: string): string
    decreases |parts|
  {
    if parts == [] then ""
    else if |parts| == 1 then parts[0]
    else JoinWith(parts[..|parts| - 1], sep) + sep + parts[|parts| - 1]
  }

  /** Joining one more part adds the separator only when there already was a part. */
  lemma {:induction false} JoinWithSnoc(parts: seq<string>, t: string, sep: string)
    ensures JoinWith(parts + [t], sep) == JoinWith(parts, sep) + (if parts == [] then "" else sep) + t
  {
    var q := parts + [t];
    assert q[..|q| - 1] == parts && q[|q| - 1] == t;
    if parts == [] {
      assert q == [t];
    }
  }

  /** Joining the first `i + 1` parts adds the separator before part `i` unless it is the first. */
  lemma {:induction false} JoinWithPrefix(parts: seq<string>, i: nat, sep: string)
    requires i < |parts|
    ensures JoinWith(parts[..i + 1], sep) == JoinWith(parts[..i], sep) + (if i == 0 then "" else sep) + parts[i]
  {
    assert parts[..i + 1] == parts[..i] + [parts[i]];
    JoinWithSnoc(parts[..i], parts[i], sep);
  }

  /** Two parts are joined around one separator. */
  lemma {:induction false} JoinWithTwo(x: string, y: string, sep: string)
    ensures JoinWith([x, y], sep) == x + sep + y
  {
    assert [x, y][..1] == [x];
  }

  /** `StringSplitOptions.RemoveEmptyEntries`. */
  function RemoveEmpty(parts: seq<string>): (r: seq<string>)
    ensures forall i :: 0 <= i < |r| ==> r[i] != [] && r[i] in parts
    ensures forall p :: p in parts && p != [] ==> p in r
  {
    if parts == [] then []
    else if parts[0] == [] then RemoveEmpty(parts[1..])
    else [parts[0]] + RemoveEmpty(parts[1..])
  }

  lemma {:induction false} SplitPrefix(x: string, y: string, sep: char)
    requires sep !in x
    ensures Split(x + y, sep) == [x + Split(y, sep)[0]] + Split(y, sep)[1..]
    decreases |x|
  {
    if x == [] {
      assert x + y == y;
      assert x + Split(y, sep)[0] == Split(y, sep)[0];
      assert [Split(y, sep)[0]] + Split(y, sep)[1..] == Split(y, sep);
    } else {
      assert (x + y)[1..] == x[1..] + y;
      assert (x + y)[0] == x[0];
      SplitPrefix(x[1..], y, sep);
      assert [x[0]] + (x[1..] + Split(y, sep)[0]) == x + Split(y, sep)[0];
    }
  }

  lemma {:induction false} SplitJoin(parts: seq<string>, sep: char)
    requires parts != []
    requires forall i :: 0 <= i < |parts| ==> sep !in parts[i]
    ensures Split(Join(parts, sep), sep) == parts
    decreases |parts|
  {
    if |parts| == 1 {
      SplitPrefix(parts[0], "", sep);
      assert parts[0] + "" == parts[0];
    } else {
      var rest := Join(parts[1..], sep);
      SplitJoin(parts[1..], sep);
      assert parts[0] + [sep] + rest == parts[0] + ([sep] + rest);
      SplitPrefix(parts[0], [sep] + rest, sep);
      assert ([sep] + rest)[1..] == rest;
      assert Split([sep] + rest, sep) == [""] + Split(rest, sep);
      assert parts[0] + "" == parts[0];
      assert [parts[0]] + parts[1..] == parts;
    }
  }

  lemma {:induction false} SplitPiecesAvoidSeparator(s: string, sep: char)
    ensures forall i :: 0 <= i < |Split(s, sep)| ==> sep !in Split(s, sep)[i]
    decreases |s|
  {
    if s != [] {
      SplitPiecesAvoidSeparator(s[1..], sep);
    }
  }

  lemma {:induction false} RemoveEmptyOfNonEmpty(parts: seq<string>)
    requires forall i :: 0 <= i < |parts| ==> parts[i] != []
    ensures RemoveEmpty(parts) == parts
    decreases |parts|
  {
    if parts != [] {
      RemoveEmptyOfNonEmpty(parts[1..]);
      assert [parts[0]] + parts[1..] == parts;
    }
  }

  function TrimStart(s: string, cs: set<char>): (r: string)
    ensures |r| <= |s| && r == s[|s| - |r|..]
    ensures r == [] || r[0] !in cs
    decreases |s|
  {
    if s != [] && s[0] in cs then TrimStart(s[1..], cs) else s
  }

  function TrimEnd(s: string, cs: set<char>): (r: string)
    ensures |r| <= |s| && r == s[..|r|]
    ensures r == [] || r[|r| - 1] !in cs
    decreases |s|
  {
    if s != [] && s[|s| - 1] in cs then TrimEnd(s[..|s| - 1], cs) else s
  }

  /** `String.Trim(chars)`: drop every leading and trailing character in `cs`. */
  function Trim(s: string, cs: set<char>): (r: string)
    ensures r == [] || (r[0] !in cs && r[|r| - 1] !in cs)
    ensures forall c :: c in r ==> c in s
  {
    var t := TrimStart(s, cs);
    var r := TrimEnd(t, cs);
    assert forall c :: c in r ==> c in t;
    assert forall c :: c in t ==> c in s;
    r
  }

  lemma {:induction false} TrimStartClean(s: string, cs: set<char>)
    requires s == [] || s[0] !in cs
    ensures TrimStart(s, cs) == s
  {
  }

  /** A leading character in the set is dropped. */
  lemma {:induction false} TrimStartDrops(c: char, s: string, cs: set<char>)
    requires c in cs
    ensures TrimStart([c] + s, cs) == TrimStart(s, cs)
  {
    assert ([c] + s)[1..] == s;
  }

  /** A trailing character in the set is dropped. */
  lemma {:induction false} TrimEndDrops(s: string, c: char, cs: set<char>)
    requires c in cs
    ensures TrimEnd(s + [c], cs) == TrimEnd(s, cs)
  {
    assert (s + [c])[..|s|] == s;
  }

  lemma {:induction false} TrimEndClean(s: string, cs: set<char>)
    requires s == [] || s[|s| - 1] !in cs
    ensures TrimEnd(s, cs) == s
  {
  }

  // ---- decimal rendering of a natural number ----

  function DigitChar(d: nat): (c: char)
    requires d < 10
    ensures '0' <= c <= '9' && c as int == '0' as int + d
  {
    (('0' as int) + d) as char
  }

  /** `int.ToString()` for a non-negative value. */
  function NatToString(n: nat): (r: string)
    ensures r != []
    ensures forall i :: 0 <= i < |r| ==> '0' <= r[i] <= '9'
    decreases n
  {
    if n < 10 then [DigitChar(n)] else NatToString(n / 10) + [DigitChar(n % 10)]
  }

  lemma {:induction false} NatToStringInjective(a: nat, b: nat)
    requires NatToString(a) == NatToString(b)
    ensures a == b
    decreases a
  {
    var sa, sb := NatToString(a), NatToString(b);
    if a < 10 && b < 10 {
      assert sa[0] == sb[0];
    } else if a >= 10 && b >= 10 {
      assert sa[|sa| - 1] == sb[|sb| - 1];
      assert a % 10 == b % 10;
      assert NatToString(a / 10) == sa[..|sa| - 1] == sb[..|sb| - 1] == NatToString(b / 10);
      NatToStringInjective(a / 10, b / 10);
    }
  }
}
