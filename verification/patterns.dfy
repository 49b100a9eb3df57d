/** The regular expressions used as rule keys. Every key in the classifier is
    a finite-language expression built from literals, `(a|b)` groups,
    top-level `|` and `?` on one character or a group, matched unanchored
    and case-sensitively; `String.prototype.match` with such a key succeeds
    exactly when one word of the key's language occurs in the string. */
module Patterns {
  import opened Text

  datatype Pattern =
    | Lit(text: string)                   // characters matched literally
    | Cat(front: Pattern, back: Pattern)  // juxtaposition
    | Alt(left: Pattern, right: Pattern)  // `left|right`
    | Opt(body: Pattern)                  // `body?`

  /** The finite set of words a pattern stands for. */
  function Lang(p: Pattern): set<string>
  {
    match p
    case Lit(t) => {t}
    case Cat(a, b) => set u, v | u in Lang(a) && v in Lang(b) :: u + v
    case Alt(a, b) => Lang(a) + Lang(b)
    case Opt(q) => {""} + Lang(q)
  }

  /** `s.match(p)` is non-null: some word of `p` occurs in `s`. */
  predicate Matches(s: string, p: Pattern)
  {
    exists w | w in Lang(p) :: Contains(s, w)
  }

  /** The `(and|&)` group used by many school keys. */
  const AndOrAmp: Pattern := Alt(Lit("and"), Lit("&"))

  /** A literal, then `middle`, then a literal. */
  function Around(before: string, middle: Pattern, after: string): Pattern
  {
    Cat(Cat(Lit(before), middle), Lit(after))
  }

  /** Length of the shortest word of a pattern. */
  function MinLen(p: Pattern): nat
  {
    match p
    case Lit(t) => |t|
    case Cat(a, b) => MinLen(a) + MinLen(b)
    case Alt(a, b) => if MinLen(a) <= MinLen(b) then MinLen(a) else MinLen(b)
    case Opt(_) => 0
  }

  /** No word of a pattern is shorter than `MinLen`. */
  lemma {:induction false} MinLenBound(p: Pattern, w: string)
    requires w in Lang(p)
    ensures |w| >= MinLen(p)
  {
    match p
    case Lit(_) =>
    case Cat(a, b) =>
      var u, v :| u in Lang(a) && v in Lang(b) && w == u + v;
      MinLenBound(a, u);
      MinLenBound(b, v);
    case Alt(a, b) =>
      if w in Lang(a) { MinLenBound(a, w); } else { MinLenBound(b, w); }
    case Opt(_) =>
  }

  /** A string shorter than every word of a pattern cannot match it. */
  lemma ShortNeverMatches(s: string, p: Pattern)
    requires |s| < MinLen(p)
    ensures !Matches(s, p)
  {
    forall w | w in Lang(p)
      ensures !Contains(s, w)
    {
      MinLenBound(p, w);
    }
  }

  /** A pattern matches a string that equals one of its words. */
  lemma MatchesOwnWord(p: Pattern, w: string)
    requires w in Lang(p)
    ensures Matches(w, p)
  {
    assert OccursAt(w, w, 0);
  }

  /** Whatever matches `Cat(a, b)` also matches its front part `a`. */
  lemma {:induction false} MatchesCatFront(s: string, a: Pattern, b: Pattern)
    requires Matches(s, Cat(a, b))
    ensures Matches(s, a)
  {
    var w :| w in Lang(Cat(a, b)) && Contains(s, w);
    var u, v :| u in Lang(a) && v in Lang(b) && w == u + v;
    ContainsPrefix(s, u, v);
  }

  /** Under unanchored search an optional tail adds nothing:
      `p(q)?` matches exactly the strings `p` matches. */
  lemma OptionalTailRedundant(s: string, p: Pattern, q: Pattern)
    ensures Matches(s, Cat(p, Opt(q))) <==> Matches(s, p)
  {
    if Matches(s, Cat(p, Opt(q))) {
      MatchesCatFront(s, p, Opt(q));
    }
    if Matches(s, p) {
      var u :| u in Lang(p) && Contains(s, u);
      assert u + "" == u;
      assert u + "" in Lang(Cat(p, Opt(q)));
    }
  }
}
