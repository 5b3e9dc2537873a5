/** Real-time finite-state transducers: every arc reads one symbol and writes a word. */
module Expanded {
  import opened Words

  datatype Arc = Arc(from: nat, sym: Symbol, out: Word, to: nat)

  /** `fEps` lists the outputs of the empty word, each once. */
  datatype FST = FST(n: nat, arcs: seq<Arc>, initial: set<nat>, final: set<nat>, fEps: seq<Word>) {
    predicate Valid() {
      && (forall a :: a in arcs ==> a.from < n && a.to < n)
      && (forall q :: q in initial ==> q < n)
      && (forall q :: q in final ==> q < n)
      && (forall i, j :: 0 <= i < j < |fEps| ==> fEps[i] != fEps[j])
    }
  }

  /** A path from p to q reads u and writes v. */
  ghost predicate Run(t: FST, p: nat, u: Word, v: Word, q: nat)
    decreases u
  {
    if u == [] then p == q && v == []
    else exists a :: a in t.arcs && a.from == p && a.sym == u[0] && a.out <= v && Run(t, a.to, u[1..], v[|a.out|..], q)
  }

  /** A path from q to a final state reads u and writes v. */
  ghost predicate Accepts(t: FST, q: nat, u: Word, v: Word)
    decreases u
  {
    if u == [] then q in t.final && v == []
    else exists a :: a in t.arcs && a.from == q && a.sym == u[0] && a.out <= v && Accepts(t, a.to, u[1..], v[|a.out|..])
  }

  ghost predicate PathRel(t: FST, u: Word, v: Word) {
    exists s :: s in t.initial && Accepts(t, s, u, v)
  }

  /** The relation of the transducer; the pairs of the empty word are kept in `fEps`. */
  ghost predicate Rel(t: FST, u: Word, v: Word) {
    if u == [] then v in t.fEps else PathRel(t, u, v)
  }

  ghost predicate Functional(t: FST) {
    forall u, v, w :: Rel(t, u, v) && Rel(t, u, w) ==> v == w
  }

  lemma AcceptsStep(t: FST, a: Arc, u: Word, v: Word)
    requires a in t.arcs && Accepts(t, a.to, u, v)
    ensures Accepts(t, a.from, [a.sym] + u, a.out + v)
  {
    var u', v' := [a.sym] + u, a.out + v;
    assert u'[1..] == u && v'[|a.out|..] == v;
  }

  lemma FirstArc(t: FST, q: nat, u: Word, v: Word) returns (a: Arc, rest: Word)
    requires u != [] && Accepts(t, q, u, v)
    ensures a in t.arcs && a.from == q && a.sym == u[0] && v == a.out + rest && Accepts(t, a.to, u[1..], rest)
  {
    a :| a in t.arcs && a.from == q && a.sym == u[0] && a.out <= v && Accepts(t, a.to, u[1..], v[|a.out|..]);
    rest := v[|a.out|..];
  }

  lemma AcceptsEmpty(t: FST, q: nat, v: Word)
    ensures Accepts(t, q, [], v) <==> q in t.final && v == []
  {
  }

  lemma FirstArcOfRun(t: FST, p: nat, u: Word, v: Word, q: nat) returns (a: Arc, rest: Word)
    requires u != [] && Run(t, p, u, v, q)
    ensures a in t.arcs && a.from == p && a.sym == u[0] && v == a.out + rest && Run(t, a.to, u[1..], rest, q)
  {
    a :| a in t.arcs && a.from == p && a.sym == u[0] && a.out <= v && Run(t, a.to, u[1..], v[|a.out|..], q);
    rest := v[|a.out|..];
  }

  lemma RunStep(t: FST, a: Arc, u: Word, v: Word, q: nat)
    requires a in t.arcs && Run(t, a.to, u, v, q)
    ensures Run(t, a.from, [a.sym] + u, a.out + v, q)
  {
    var u', v' := [a.sym] + u, a.out + v;
    assert u'[1..] == u && v'[|a.out|..] == v;
  }

  /** A path can be extended by an arc at its end. */
  lemma RunThenArc(t: FST, p: nat, u: Word, v: Word, a: Arc)
    requires a in t.arcs && Run(t, p, u, v, a.from)
    ensures Run(t, p, u + [a.sym], v + a.out, a.to)
    decreases u
  {
    hide Run;
    if u == [] {
      RunEmpty(t, p, v, a.from);
      RunEmpty(t, a.to, [], a.to);
      RunStep(t, a, [], [], a.to);
      assert [a.sym] + [] == u + [a.sym] && a.out + [] == v + a.out;
    } else {
      var b, rest := FirstArcOfRun(t, p, u, v, a.from);
      RunThenArc(t, b.to, u[1..], rest, a);
      RunStep(t, b, u[1..] + [a.sym], rest + a.out, a.to);
      assert [b.sym] + (u[1..] + [a.sym]) == u + [a.sym];
      assert b.out + (rest + a.out) == v + a.out;
    }
  }

  lemma RunEmpty(t: FST, p: nat, v: Word, q: nat)
    ensures Run(t, p, [], v, q) <==> p == q && v == []
  {
  }

  lemma RunThenAccepts(t: FST, p: nat, u: Word, v: Word, q: nat, x: Word, y: Word)
    requires Run(t, p, u, v, q) && Accepts(t, q, x, y)
    ensures Accepts(t, p, u + x, v + y)
    decreases u
  {
    hide Run, Accepts;
    if u == [] {
      RunEmpty(t, p, v, q);
      assert u + x == x && v + y == y;
    } else {
      var a, rest := FirstArcOfRun(t, p, u, v, q);
      RunThenAccepts(t, a.to, u[1..], rest, q, x, y);
      AcceptsStep(t, a, u[1..] + x, rest + y);
      assert [a.sym] + (u[1..] + x) == u + x && a.out + (rest + y) == v + y;
    }
  }
}
