/**
 * Templates as the text replacement sees them: literal text between named
 * `{name}` placeholders. One replacement pass of a placeholder over such a
 * text is the same as substituting that placeholder in the piece list.
 */
module Templates {

  import opened Strings

  /** A stretch of a template: literal text, or a placeholder `{name}`. */
  datatype Piece = Lit(text: string) | Hole(name: string)

  function Placeholder(name: string): string {
    "{" + name + "}"
  }

  /** Text with no opening brace: no placeholder can start inside it. */
  predicate NoBrace(s: string) {
    '{' !in s
  }

  /** A placeholder name holds neither brace. */
  predicate IsName(n: string) {
    '{' !in n && '}' !in n
  }

  function PieceText(p: Piece): string {
    match p
    case Lit(t) => t
    case Hole(n) => Placeholder(n)
  }

  /** The template text the pieces spell. */
  function TemplateText(ps: seq<Piece>): string {
    if ps == [] then "" else PieceText(ps[0]) + TemplateText(ps[1..])
  }

  predicate WellFormed(ps: seq<Piece>) {
    forall i :: 0 <= i < |ps| ==> (ps[i].Lit? ==> NoBrace(ps[i].text)) && (ps[i].Hole? ==> IsName(ps[i].name))
  }

  /** Every placeholder `{n}` becomes the literal `v`; nothing else changes. */
  function Subst(ps: seq<Piece>, n: string, v: string): (r: seq<Piece>)
    ensures |r| == |ps|
    ensures forall i :: 0 <= i < |ps| ==> r[i] == (if ps[i] == Hole(n) then Lit(v) else ps[i])
  {
    seq(|ps|, i requires 0 <= i < |ps| => if ps[i] == Hole(n) then Lit(v) else ps[i])
  }

  /** One step of `Text` at an offset. */
  lemma {:induction false} TextStep(ps: seq<Piece>, i: nat)
    requires i < |ps|
    ensures TemplateText(ps[i..]) == PieceText(ps[i]) + TemplateText(ps[i + 1..])
  {
    assert ps[i..][1..] == ps[i + 1..];
  }

  /** A placeholder with another name is not matched, at its start or inside it. */
  lemma {:induction false} OtherPlaceholderPasses(m: string, n: string, c: string, rep: string)
    requires IsName(m) && IsName(n) && m != n
    ensures ReplaceAll(Placeholder(m) + c, Placeholder(n), rep) == Placeholder(m) + ReplaceAll(c, Placeholder(n), rep)
  {
    var q, pat := Placeholder(m), Placeholder(n);
    assert q[1..] == m + "}";
    var k: nat;
    if |m| < |n| {
      k := |m| + 1;
      assert q[k] == '}' && pat[k] == n[|m|];
    } else if |n| < |m| {
      k := |n| + 1;
      assert pat[k] == '}' && q[k] == m[|n|];
    } else {
      var j :| 0 <= j < |m| && m[j] != n[j];
      k := j + 1;
      assert q[k] == m[j] && pat[k] == n[j];
    }
    ReplaceAllPassPlaceholder(q, c, pat, rep, k);
  }

  /** Replacing every `{n}` in a template's text by brace-free `v` spells the substituted template. */
  lemma {:induction false} SubstText(ps: seq<Piece>, n: string, v: string)
    requires WellFormed(ps) && IsName(n) && NoBrace(v)
    ensures ReplaceAll(TemplateText(ps), Placeholder(n), v) == TemplateText(Subst(ps, n, v))
    ensures WellFormed(Subst(ps, n, v))
    decreases |ps|
  {
    var pat := Placeholder(n);
    if ps == [] {
      ReplaceAllAbsentShort([], pat, v);
    } else {
      var rest := TemplateText(ps[1..]);
      assert WellFormed(ps[1..]) by {
        forall i | 0 <= i < |ps[1..]| ensures ps[1..][i] == ps[i + 1] { }
      }
      SubstText(ps[1..], n, v);
      var s := Subst(ps, n, v);
      assert s[1..] == Subst(ps[1..], n, v);
      match ps[0]
      case Lit(t) =>
        ReplaceAllSkip(t, rest, pat, v);
      case Hole(m) =>
        if m == n {
          ReplaceAllHead(rest, pat, v);
        } else {
          OtherPlaceholderPasses(m, n, rest, v);
        }
    }
  }

  /** The text of a concatenation is the concatenation of the texts. */
  lemma {:induction false} TextAppend(a: seq<Piece>, b: seq<Piece>)
    ensures TemplateText(a + b) == TemplateText(a) + TemplateText(b)
    decreases |a|
  {
    if a == [] {
      assert a + b == b;
    } else {
      assert (a + b)[1..] == a[1..] + b;
      TextAppend(a[1..], b);
    }
  }

  /** Short all-literal piece lists spell their texts in order. */
  lemma {:induction false} SpellOne(a: string)
    ensures TemplateText([Lit(a)]) == a
  {
    var r := [Lit(a)];
    TextStep(r, 0);
    assert r[1..] == [];
  }

  lemma {:induction false} SpellTwo(a: string, b: string)
    ensures TemplateText([Lit(a), Lit(b)]) == a + b
  {
    var r := [Lit(a), Lit(b)];
    TextStep(r, 0);
    TextStep(r, 1);
    assert r[2..] == [];
  }

  lemma {:induction false} SpellFour(a: string, b: string, c: string, d: string)
    ensures TemplateText([Lit(a), Lit(b), Lit(c), Lit(d)]) == a + b + c + d
  {
    var x, y := [Lit(a), Lit(b)], [Lit(c), Lit(d)];
    assert x + y == [Lit(a), Lit(b), Lit(c), Lit(d)];
    TextAppend(x, y);
    SpellTwo(a, b);
    SpellTwo(c, d);
  }
}
