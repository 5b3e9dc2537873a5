/** Subsequential transducers and the relation they compute. */
module Subsequential {
  import opened Words

  datatype Arc = Arc(sym: Symbol, out: Word, to: nat)

  /** State q has the arcs `arcs[q]`; it is final exactly when `psi[q]` is a word. State 0 is initial. */
  datatype SSFST = SSFST(arcs: seq<seq<Arc>>, psi: seq<Option<Word>>, initialOut: Word) {
    function Size(): nat { |arcs| }

    predicate Valid() {
      && |psi| == |arcs|
      && forall q, a :: 0 <= q < |arcs| && a in arcs[q] ==> a.to < |arcs|
    }
  }

  /** Some run from q reads u, ends in a final state and emits v, the final output included. */
  ghost predicate Rel(t: SSFST, q: nat, u: Word, v: Word)
    requires t.Valid() && q < t.Size()
    decreases u
  {
    if u == [] then t.psi[q] == Some(v)
    else exists a :: a in t.arcs[q] && a.sym == u[0] && a.out <= v && Rel(t, a.to, u[1..], v[|a.out|..])
  }

  /** The relation of the transducer: runs from state 0, after the initial output. */
  ghost predicate Translates(t: SSFST, u: Word, v: Word)
    requires t.Valid()
  {
    t.Size() > 0 && t.initialOut <= v && Rel(t, 0, u, v[|t.initialOut|..])
  }

  /** Some run from q is accepted. */
  ghost predicate CoAccessible(t: SSFST, q: nat)
    requires t.Valid() && q < t.Size()
  {
    exists u, v :: Rel(t, q, u, v)
  }

  lemma RelStep(t: SSFST, q: nat, a: Arc, u: Word, v: Word)
    requires t.Valid() && q < t.Size() && a in t.arcs[q] && Rel(t, a.to, u, v)
    ensures Rel(t, q, [a.sym] + u, a.out + v)
  {
    var u', v' := [a.sym] + u, a.out + v;
    assert u'[1..] == u && v'[|a.out|..] == v;
  }

  lemma FirstArc(t: SSFST, q: nat, u: Word, v: Word) returns (a: Arc, rest: Word)
    requires t.Valid() && q < t.Size() && u != [] && Rel(t, q, u, v)
    ensures a in t.arcs[q] && u == [a.sym] + u[1..] && v == a.out + rest && Rel(t, a.to, u[1..], rest)
  {
    a :| a in t.arcs[q] && a.sym == u[0] && a.out <= v && Rel(t, a.to, u[1..], v[|a.out|..]);
    rest := v[|a.out|..];
  }

  lemma RelEnd(t: SSFST, q: nat, v: Word)
    requires t.Valid() && q < t.Size()
    ensures Rel(t, q, [], v) <==> t.psi[q] == Some(v)
  {
  }
}
