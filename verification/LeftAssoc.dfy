/** Turning nested unions and concatenations to the left. */
module LeftAssoc {
  import opened Words
  import opened Nfa
  import opened Regexes

  function Size<W>(e: Expr<W>): nat {
    match e
    case Tuple(_, _) => 1
    case Union(x, y) => Size(x) + Size(y) + 1
    case Concat(x, y) => Size(x) + Size(y) + 1
    case Star(c) => Size(c) + 1
    case Plus(c) => Size(c) + 1
  }

  /** How much a rotation still has to work off on the right. */
  function RightSize<W>(e: Expr<W>): nat {
    match e
    case Union(_, y) => Size(y)
    case Concat(_, y) => Size(y)
    case _ => 0
  }

  /** A rotation keeps the size and leaves less on the right. */
  lemma Rotated<W>(x: Expr<W>, y: Expr<W>, z: Expr<W>)
    ensures Size(Union(Union(x, y), z)) == Size(Union(x, Union(y, z))) && RightSize(Union(Union(x, y), z)) < RightSize(Union(x, Union(y, z)))
    ensures Size(Concat(Concat(x, y), z)) == Size(Concat(x, Concat(y, z))) && RightSize(Concat(Concat(x, y), z)) < RightSize(Concat(x, Concat(y, z)))
  {
    assert Size(Union(x, y)) == Size(x) + Size(y) + 1 && Size(Union(y, z)) == Size(y) + Size(z) + 1;
    assert Size(Concat(x, y)) == Size(x) + Size(y) + 1 && Size(Concat(y, z)) == Size(y) + Size(z) + 1;
  }

  /** A right operand of the same kind is rotated to the left, then the result is treated again; a plus is left alone. */
  function ToLeftAssoc<W>(e: Expr<W>): Expr<W>
    decreases Size(e), RightSize(e)
  {
    match e
    case Union(x, Union(y, z)) => Rotated(x, y, z); ToLeftAssoc(Union(Union(x, y), z))
    case Union(x, y) => Union(ToLeftAssoc(x), ToLeftAssoc(y))
    case Concat(x, Concat(y, z)) => Rotated(x, y, z); ToLeftAssoc(Concat(Concat(x, y), z))
    case Concat(x, y) => Concat(ToLeftAssoc(x), ToLeftAssoc(y))
    case Star(c) => Star(ToLeftAssoc(c))
    case _ => e
  }

  // ---------- normal form ----------

  /** Outside plus nodes, no union is the right operand of a union and no concatenation that of a concatenation. */
  predicate LeftNormal<W>(e: Expr<W>) {
    match e
    case Union(x, y) => !y.Union? && LeftNormal(x) && LeftNormal(y)
    case Concat(x, y) => !y.Concat? && LeftNormal(x) && LeftNormal(y)
    case Star(c) => LeftNormal(c)
    case _ => true
  }

  lemma {:induction false} KeepsHead<W>(e: Expr<W>)
    ensures ToLeftAssoc(e).Union? == e.Union? && ToLeftAssoc(e).Concat? == e.Concat?
    decreases Size(e), RightSize(e)
  {
    match e
    case Union(x, Union(y, z)) => Rotated(x, y, z); KeepsHead(Union(Union(x, y), z));
    case Concat(x, Concat(y, z)) => Rotated(x, y, z); KeepsHead(Concat(Concat(x, y), z));
    case _ =>
  }

  lemma {:induction false} ResultIsNormal<W>(e: Expr<W>)
    ensures LeftNormal(ToLeftAssoc(e))
    decreases Size(e), RightSize(e)
  {
    match e
    case Union(x, Union(y, z)) => Rotated(x, y, z); ResultIsNormal(Union(Union(x, y), z));
    case Union(x, y) => ResultIsNormal(x); ResultIsNormal(y); KeepsHead(y);
    case Concat(x, Concat(y, z)) => Rotated(x, y, z); ResultIsNormal(Concat(Concat(x, y), z));
    case Concat(x, y) => ResultIsNormal(x); ResultIsNormal(y); KeepsHead(y);
    case Star(c) => ResultIsNormal(c);
    case _ =>
  }

  /** Exactly the expressions in normal form are left as they are. */
  lemma {:induction false} NormalIsFixed<W>(e: Expr<W>)
    ensures LeftNormal(e) <==> ToLeftAssoc(e) == e
    decreases Size(e), RightSize(e)
  {
    if LeftNormal(e) {
      match e
      case Union(x, y) => NormalIsFixed(x); NormalIsFixed(y);
      case Concat(x, y) => NormalIsFixed(x); NormalIsFixed(y);
      case Star(c) => NormalIsFixed(c);
      case _ =>
    } else {
      ResultIsNormal(e);
    }
  }

  // ---------- what is kept ----------

  function Leaves<W>(e: Expr<W>): seq<(W, W)> {
    match e
    case Tuple(a, b) => [(a, b)]
    case Union(x, y) => Leaves(x) + Leaves(y)
    case Concat(x, y) => Leaves(x) + Leaves(y)
    case Star(c) => Leaves(c)
    case Plus(c) => Leaves(c)
  }

  /** The tuples keep their order, and no node is added or lost. */
  lemma {:induction false} KeepsLeaves<W>(e: Expr<W>)
    ensures Leaves(ToLeftAssoc(e)) == Leaves(e) && Size(ToLeftAssoc(e)) == Size(e)
    decreases Size(e), RightSize(e)
  {
    match e
    case Union(x, Union(y, z)) =>
      Rotated(x, y, z);
      KeepsLeaves(Union(Union(x, y), z));
      assert (Leaves(x) + Leaves(y)) + Leaves(z) == Leaves(x) + (Leaves(y) + Leaves(z));
    case Union(x, y) => KeepsLeaves(x); KeepsLeaves(y);
    case Concat(x, Concat(y, z)) =>
      Rotated(x, y, z);
      KeepsLeaves(Concat(Concat(x, y), z));
      assert (Leaves(x) + Leaves(y)) + Leaves(z) == Leaves(x) + (Leaves(y) + Leaves(z));
    case Concat(x, y) => KeepsLeaves(x); KeepsLeaves(y);
    case Star(c) => KeepsLeaves(c);
    case _ =>
  }

  ghost predicate SameSpelling(d: Regex, e: Regex) {
    forall w {:trigger Spells(d, w)} {:trigger Spells(e, w)} :: Spells(d, w) <==> Spells(e, w)
  }

  lemma UnionAssociates(x: Regex, y: Regex, z: Regex)
    ensures SameSpelling(Union(x, Union(y, z)), Union(Union(x, y), z))
  {
    hide Spells;
    forall w ensures Spells(Union(x, Union(y, z)), w) <==> Spells(Union(Union(x, y), z), w) {
      SpellsUnion(x, Union(y, z), w);
      SpellsUnion(y, z, w);
      SpellsUnion(Union(x, y), z, w);
      SpellsUnion(x, y, w);
    }
  }

  lemma TurnLeft(x: Regex, y: Regex, z: Regex, w: seq<Pair>)
    requires Spells(Concat(x, Concat(y, z)), w)
    ensures Spells(Concat(Concat(x, y), z), w)
  {
    hide Spells;
    var a, bc := SplitConcat(x, Concat(y, z), w);
    var b, c := SplitConcat(y, z, bc);
    SpellsConcat(x, y, a, b);
    SpellsConcat(Concat(x, y), z, a + b, c);
    assert a + (b + c) == (a + b) + c;
  }

  lemma TurnRight(x: Regex, y: Regex, z: Regex, w: seq<Pair>)
    requires Spells(Concat(Concat(x, y), z), w)
    ensures Spells(Concat(x, Concat(y, z)), w)
  {
    hide Spells;
    var ab, c := SplitConcat(Concat(x, y), z, w);
    var a, b := SplitConcat(x, y, ab);
    SpellsConcat(y, z, b, c);
    SpellsConcat(x, Concat(y, z), a, b + c);
    assert a + (b + c) == (a + b) + c;
  }

  lemma ConcatAssociates(x: Regex, y: Regex, z: Regex)
    ensures SameSpelling(Concat(x, Concat(y, z)), Concat(Concat(x, y), z))
  {
    hide Spells;
    forall w ensures Spells(Concat(x, Concat(y, z)), w) <==> Spells(Concat(Concat(x, y), z), w) {
      if Spells(Concat(x, Concat(y, z)), w) {
        TurnLeft(x, y, z, w);
      }
      if Spells(Concat(Concat(x, y), z), w) {
        TurnRight(x, y, z, w);
      }
    }
  }

  lemma UnionRespects(x: Regex, x': Regex, y: Regex, y': Regex)
    requires SameSpelling(x, x') && SameSpelling(y, y')
    ensures SameSpelling(Union(x, y), Union(x', y'))
  {
    hide Spells;
    forall w ensures Spells(Union(x, y), w) <==> Spells(Union(x', y'), w) {
      SpellsUnion(x, y, w);
      SpellsUnion(x', y', w);
    }
  }

  lemma ConcatRespects(x: Regex, x': Regex, y: Regex, y': Regex)
    requires SameSpelling(x, x') && SameSpelling(y, y')
    ensures SameSpelling(Concat(x, y), Concat(x', y'))
  {
    hide Spells;
    forall w ensures Spells(Concat(x, y), w) <==> Spells(Concat(x', y'), w) {
      if Spells(Concat(x, y), w) {
        var a, b := SplitConcat(x, y, w);
        SpellsConcat(x', y', a, b);
      }
      if Spells(Concat(x', y'), w) {
        var a, b := SplitConcat(x', y', w);
        SpellsConcat(x, y, a, b);
      }
    }
  }

  lemma {:induction false} RepeatsRespects(c: Regex, c': Regex, w: seq<Pair>)
    requires SameSpelling(c, c') && Repeats(c, w)
    ensures Repeats(c', w)
    decreases |w|
  {
    hide Spells, Repeats;
    SpellsStar(c', w);
    if w != [] {
      var a, b := SplitRepeats(c, w);
      RepeatsRespects(c, c', b);
      RepeatsMore(c', a, b);
    }
  }

  lemma StarRespects(c: Regex, c': Regex)
    requires SameSpelling(c, c')
    ensures SameSpelling(Star(c), Star(c'))
  {
    hide Spells, Repeats;
    forall w ensures Spells(Star(c), w) <==> Spells(Star(c'), w) {
      SpellsStar(c, w);
      SpellsStar(c', w);
      if Repeats(c, w) {
        RepeatsRespects(c, c', w);
      }
      if Repeats(c', w) {
        RepeatsRespects(c', c, w);
      }
    }
  }

  lemma SameSpellingJoins(c: Regex, d: Regex, e: Regex)
    requires SameSpelling(c, d) && SameSpelling(d, e)
    ensures SameSpelling(c, e)
  {
    hide Spells;
    forall w ensures Spells(c, w) <==> Spells(e, w) {
      var b := Spells(d, w);
    }
  }

  lemma {:induction false} KeepsSpelling(e: Regex)
    ensures SameSpelling(e, ToLeftAssoc(e))
    decreases Size(e), RightSize(e)
  {
    hide Spells, SameSpelling;
    match e
    case Union(x, Union(y, z)) =>
      UnionAssociates(x, y, z);
      Rotated(x, y, z);
      KeepsSpelling(Union(Union(x, y), z));
      SameSpellingJoins(e, Union(Union(x, y), z), ToLeftAssoc(e));
    case Union(x, y) =>
      KeepsSpelling(x);
      KeepsSpelling(y);
      UnionRespects(x, ToLeftAssoc(x), y, ToLeftAssoc(y));
    case Concat(x, Concat(y, z)) =>
      ConcatAssociates(x, y, z);
      Rotated(x, y, z);
      KeepsSpelling(Concat(Concat(x, y), z));
      SameSpellingJoins(e, Concat(Concat(x, y), z), ToLeftAssoc(e));
    case Concat(x, y) =>
      KeepsSpelling(x);
      KeepsSpelling(y);
      ConcatRespects(x, ToLeftAssoc(x), y, ToLeftAssoc(y));
    case Star(c) =>
      KeepsSpelling(c);
      StarRespects(c, ToLeftAssoc(c));
    case _ =>
      SameSpellingItself(e);
  }

  lemma SameSpellingItself(e: Regex)
    ensures SameSpelling(e, e)
  {
  }

  /** The denotation is kept. */
  lemma KeepsDenotation(e: Regex, x: Pair)
    ensures Denotes(ToLeftAssoc(e), x) <==> Denotes(e, x)
  {
    hide Spells, Flat;
    KeepsSpelling(e);
    if Denotes(e, x) {
      var w :| Spells(e, w) && Flat(w) == x;
    }
    if Denotes(ToLeftAssoc(e), x) {
      var w :| Spells(ToLeftAssoc(e), w) && Flat(w) == x;
    }
  }
}
