/** Regular expressions over pairs of words and what they denote. */
module Regexes {
  import opened Words
  import opened Nfa

  /** Expressions over tuples whose words are of any type: strings as parsed, or words over the alphabet. */
  datatype Expr<W> =
    | Tuple(left: W, right: W)
    | Union(l: Expr<W>, r: Expr<W>)
    | Concat(l: Expr<W>, r: Expr<W>)
    | Star(child: Expr<W>)
    | Plus(child: Expr<W>)

  type Regex = Expr<Word>

  /** The sequences of tuples that the expression describes. */
  ghost predicate Spells(r: Regex, w: seq<Pair>)
    decreases r, |w|, 0
  {
    match r
    case Tuple(a, b) => w == [(a, b)]
    case Union(x, y) => Spells(x, w) || Spells(y, w)
    case Concat(x, y) => exists i: nat {:trigger w[..i]} :: i <= |w| && Spells(x, w[..i]) && Spells(y, w[i..])
    case Star(c) => Repeats(c, w)
    case Plus(c) => exists i: nat {:trigger w[..i]} :: i <= |w| && Spells(c, w[..i]) && Repeats(c, w[i..])
  }

  /** Any number of words of c, one after the other. */
  ghost predicate Repeats(c: Regex, w: seq<Pair>)
    decreases c, |w|, 1
  {
    w == [] || exists i: nat {:trigger w[..i]} :: 0 < i <= |w| && Spells(c, w[..i]) && Repeats(c, w[i..])
  }

  /** The pairs of words that the expression denotes. */
  ghost predicate Denotes(r: Regex, x: Pair) {
    exists w {:trigger Spells(r, w)} :: Spells(r, w) && Flat(w) == x
  }

  lemma SpellsConcat(x: Regex, y: Regex, a: seq<Pair>, b: seq<Pair>)
    requires Spells(x, a) && Spells(y, b)
    ensures Spells(Concat(x, y), a + b)
  {
    var w := a + b;
    assert w[..|a|] == a && w[|a|..] == b;
  }

  lemma RepeatsMore(c: Regex, a: seq<Pair>, b: seq<Pair>)
    requires Spells(c, a) && Repeats(c, b)
    ensures Repeats(c, a + b) && Spells(Plus(c), a + b)
  {
    var w := a + b;
    assert w[..|a|] == a && w[|a|..] == b;
    if a == [] {
      assert w == b;
    }
  }

  lemma SplitConcat(x: Regex, y: Regex, w: seq<Pair>) returns (a: seq<Pair>, b: seq<Pair>)
    requires Spells(Concat(x, y), w)
    ensures w == a + b && Spells(x, a) && Spells(y, b)
  {
    var i: nat :| i <= |w| && Spells(x, w[..i]) && Spells(y, w[i..]);
    a, b := w[..i], w[i..];
  }

  lemma SplitPlus(c: Regex, w: seq<Pair>) returns (a: seq<Pair>, b: seq<Pair>)
    requires Spells(Plus(c), w)
    ensures w == a + b && Spells(c, a) && Repeats(c, b)
  {
    var i: nat :| i <= |w| && Spells(c, w[..i]) && Repeats(c, w[i..]);
    a, b := w[..i], w[i..];
  }

  lemma SplitRepeats(c: Regex, w: seq<Pair>) returns (a: seq<Pair>, b: seq<Pair>)
    requires Repeats(c, w) && w != []
    ensures a != [] && w == a + b && Spells(c, a) && Repeats(c, b)
  {
    var i: nat :| 0 < i <= |w| && Spells(c, w[..i]) && Repeats(c, w[i..]);
    a, b := w[..i], w[i..];
  }

  lemma SpellsOne(r: Regex)
    requires r.Tuple?
    ensures forall w {:trigger Spells(r, w)} :: Spells(r, w) <==> w == [(r.left, r.right)]
  {
  }

  lemma SpellsUnion(x: Regex, y: Regex, w: seq<Pair>)
    ensures Spells(Union(x, y), w) <==> Spells(x, w) || Spells(y, w)
  {
  }

  lemma SpellsStar(c: Regex, w: seq<Pair>)
    ensures Spells(Star(c), w) <==> Repeats(c, w)
    ensures Repeats(c, [])
  {
  }

  // ---------- the denotation without sequences of tuples ----------

  lemma DenotesTuple(a: Word, b: Word, x: Pair)
    ensures Denotes(Tuple(a, b), x) <==> x == (a, b)
  {
    var w := [(a, b)];
    SpellsOne(Tuple(a, b));
    assert w[1..] == [] && a + [] == a && b + [] == b;
    assert Flat(w) == (a, b);
    assert Spells(Tuple(a, b), w);
  }

  lemma DenotesUnion(r: Regex, s: Regex, x: Pair)
    ensures Denotes(Union(r, s), x) <==> Denotes(r, x) || Denotes(s, x)
  {
    hide Spells, Flat;
    if Denotes(Union(r, s), x) {
      var w :| Spells(Union(r, s), w) && Flat(w) == x;
      SpellsUnion(r, s, w);
    }
    if Denotes(r, x) {
      var w :| Spells(r, w) && Flat(w) == x;
      SpellsUnion(r, s, w);
    }
    if Denotes(s, x) {
      var w :| Spells(s, w) && Flat(w) == x;
      SpellsUnion(r, s, w);
    }
  }

  lemma DenotesConcat(r: Regex, s: Regex, x: Pair)
    ensures Denotes(Concat(r, s), x) <==> exists y, z {:trigger Denotes(r, y), Denotes(s, z)} :: Denotes(r, y) && Denotes(s, z) && x == Mul(y, z)
  {
    hide Spells, Flat;
    if Denotes(Concat(r, s), x) {
      var w :| Spells(Concat(r, s), w) && Flat(w) == x;
      var a, b := SplitConcat(r, s, w);
      FlatJoin(a, b);
      assert Denotes(r, Flat(a)) && Denotes(s, Flat(b));
    }
    if y, z :| Denotes(r, y) && Denotes(s, z) && x == Mul(y, z) {
      var a :| Spells(r, a) && Flat(a) == y;
      var b :| Spells(s, b) && Flat(b) == z;
      SpellsConcat(r, s, a, b);
      FlatJoin(a, b);
    }
  }

  lemma DenotesPlus(c: Regex, x: Pair)
    ensures Denotes(Plus(c), x) <==> exists y, z {:trigger Denotes(c, y), Denotes(Star(c), z)} :: Denotes(c, y) && Denotes(Star(c), z) && x == Mul(y, z)
  {
    hide Spells, Flat, Repeats;
    if Denotes(Plus(c), x) {
      var w :| Spells(Plus(c), w) && Flat(w) == x;
      var a, b := SplitPlus(c, w);
      SpellsStar(c, b);
      FlatJoin(a, b);
      assert Denotes(c, Flat(a)) && Denotes(Star(c), Flat(b));
    }
    if y, z :| Denotes(c, y) && Denotes(Star(c), z) && x == Mul(y, z) {
      var a :| Spells(c, a) && Flat(a) == y;
      var b :| Spells(Star(c), b) && Flat(b) == z;
      SpellsStar(c, b);
      RepeatsMore(c, a, b);
      FlatJoin(a, b);
    }
  }

  /** A star relates the empty words, and what a plus relates. */
  lemma DenotesStar(c: Regex, x: Pair)
    ensures Denotes(Star(c), x) <==> x == ([], []) || Denotes(Plus(c), x)
  {
    hide Spells, Repeats;
    var e: seq<Pair> := [];
    SpellsStar(c, e);
    assert Flat(e) == ([], []);
    if x == ([], []) {
      assert Spells(Star(c), e) && Flat(e) == x;
    }
    if Denotes(Star(c), x) && x != ([], []) {
      var w :| Spells(Star(c), w) && Flat(w) == x;
      SpellsStar(c, w);
      var a, b := SplitRepeats(c, w);
      RepeatsMore(c, a, b);
      assert Spells(Plus(c), w) && Flat(w) == x;
    }
    if Denotes(Plus(c), x) {
      var w :| Spells(Plus(c), w) && Flat(w) == x;
      var a, b := SplitPlus(c, w);
      RepeatsMore(c, a, b);
      SpellsStar(c, w);
    }
  }

  /** Together with the equations above: a star is the least relation with the pair of empty words that is closed
      under one more factor. */
  lemma StarIsLeast(c: Regex, p: Pair -> bool, x: Pair)
    requires p(([], [])) && forall y, z {:trigger Denotes(c, y), p(z)} :: Denotes(c, y) && p(z) ==> p(Mul(y, z))
    requires Denotes(Star(c), x)
    ensures p(x)
  {
    hide Spells, Repeats, Flat;
    var w :| Spells(Star(c), w) && Flat(w) == x;
    SpellsStar(c, w);
    RepeatsClosed(c, p, w);
  }

  lemma {:induction false} RepeatsClosed(c: Regex, p: Pair -> bool, w: seq<Pair>)
    requires p(([], [])) && forall y, z {:trigger Denotes(c, y), p(z)} :: Denotes(c, y) && p(z) ==> p(Mul(y, z))
    requires Repeats(c, w)
    ensures p(Flat(w))
    decreases |w|
  {
    hide Spells, Repeats;
    if w != [] {
      var a, b := SplitRepeats(c, w);
      RepeatsClosed(c, p, b);
      FlatJoin(a, b);
      assert Denotes(c, Flat(a));
    }
  }

  function StarOf(c: Regex, includeEpsilon: bool): Regex {
    if includeEpsilon then Star(c) else Plus(c)
  }
}
