/** Automata whose transitions carry pairs of words: one initial state, any labels, the empty ones included. */
module Nfa {
  import opened Words

  type Pair = (Word, Word)

  const IDENTITY: Pair := ([], [])

  datatype Edge = Edge(from: nat, lab: Pair, to: nat)

  datatype Nfa = Nfa(n: nat, first: nat, finals: set<nat>, arcs: set<Edge>) {
    predicate Valid() {
      && (finals != {} ==> first < n)
      && (forall q :: q in finals ==> q < n)
      && (forall e :: e in arcs ==> e.from < n && e.to < n)
    }
  }

  /** A path from p to q whose labels are w, one after the other. */
  ghost predicate Run(g: Nfa, p: nat, w: seq<Pair>, q: nat)
    decreases w
  {
    if w == [] then p == q
    else exists e {:trigger EdgeOn(g, e, p, w[0])} :: EdgeOn(g, e, p, w[0]) && Run(g, e.to, w[1..], q)
  }

  predicate EdgeOn(g: Nfa, e: Edge, p: nat, l: Pair) {
    e in g.arcs && e.from == p && e.lab == l
  }

  ghost predicate Language(g: Nfa, w: seq<Pair>) {
    exists f {:trigger Run(g, g.first, w, f)} :: f in g.finals && Run(g, g.first, w, f)
  }

  /** The pair of words that a sequence of labels spells. */
  function Flat(w: seq<Pair>): Pair {
    if w == [] then ([], []) else (w[0].0 + Flat(w[1..]).0, w[0].1 + Flat(w[1..]).1)
  }

  function Mul(x: Pair, y: Pair): Pair {
    (x.0 + y.0, x.1 + y.1)
  }

  lemma {:induction false} FlatJoin(a: seq<Pair>, b: seq<Pair>)
    ensures Flat(a + b) == Mul(Flat(a), Flat(b))
    decreases a
  {
    if a == [] {
      assert a + b == b;
      assert [] + Flat(b).0 == Flat(b).0 && [] + Flat(b).1 == Flat(b).1;
    } else {
      assert (a + b)[1..] == a[1..] + b;
      FlatJoin(a[1..], b);
      var x, y, z := a[0], Flat(a[1..]), Flat(b);
      assert x.0 + (y.0 + z.0) == (x.0 + y.0) + z.0;
      assert x.1 + (y.1 + z.1) == (x.1 + y.1) + z.1;
    }
  }

  /** The relation of the automaton. */
  ghost predicate Relates(g: Nfa, x: Pair) {
    exists w {:trigger Language(g, w)} :: Language(g, w) && Flat(w) == x
  }

  // ---------- paths ----------

  lemma RunEmpty(g: Nfa, p: nat, q: nat)
    ensures Run(g, p, [], q) <==> p == q
  {
  }

  lemma RunStep(g: Nfa, e: Edge, w: seq<Pair>, q: nat)
    requires e in g.arcs && Run(g, e.to, w, q)
    ensures Run(g, e.from, [e.lab] + w, q)
  {
    assert ([e.lab] + w)[1..] == w;
    assert EdgeOn(g, e, e.from, ([e.lab] + w)[0]);
  }

  lemma FirstEdge(g: Nfa, p: nat, w: seq<Pair>, q: nat) returns (e: Edge)
    requires w != [] && Run(g, p, w, q)
    ensures EdgeOn(g, e, p, w[0]) && Run(g, e.to, w[1..], q)
  {
    e :| EdgeOn(g, e, p, w[0]) && Run(g, e.to, w[1..], q);
  }

  lemma {:induction false} RunJoin(g: Nfa, p: nat, w: seq<Pair>, q: nat, x: seq<Pair>, r: nat)
    requires Run(g, p, w, q) && Run(g, q, x, r)
    ensures Run(g, p, w + x, r)
    decreases w
  {
    hide Run;
    if w == [] {
      RunEmpty(g, p, q);
      assert w + x == x;
    } else {
      var e := FirstEdge(g, p, w, q);
      RunJoin(g, e.to, w[1..], q, x, r);
      RunStep(g, e, w[1..] + x, r);
      assert [e.lab] + (w[1..] + x) == w + x;
    }
  }

  // ---------- one automaton inside another ----------

  function ShiftEdge(e: Edge, k: nat): Edge {
    Edge(e.from + k, e.lab, e.to + k)
  }

  predicate InRegion(f: Nfa, k: nat, q: nat) {
    k <= q < k + f.n
  }

  /**
   * The states k to k + f.n of g are a copy of f; it is left only by edges with the empty label from copies of
   * final states to one of the exits.
   */
  ghost predicate Region(g: Nfa, f: Nfa, k: nat, exits: set<nat>) {
    && f.Valid()
    && (forall e {:trigger ShiftEdge(e, k)} :: e in f.arcs ==> ShiftEdge(e, k) in g.arcs)
    && (forall e {:trigger e in g.arcs} :: e in g.arcs && InRegion(f, k, e.from) ==> Inside(f, k, e) || Leaving(f, k, exits, e))
  }

  predicate Inside(f: Nfa, k: nat, e: Edge) {
    e.from >= k && e.to >= k && Edge(e.from - k, e.lab, e.to - k) in f.arcs
  }

  predicate Leaving(f: Nfa, k: nat, exits: set<nat>, e: Edge) {
    e.from >= k && e.from - k in f.finals && e.lab == IDENTITY && e.to in exits
  }

  lemma {:induction false} RunInRegion(g: Nfa, f: Nfa, k: nat, exits: set<nat>, p: nat, w: seq<Pair>, q: nat)
    requires Region(g, f, k, exits) && Run(f, p, w, q)
    ensures Run(g, p + k, w, q + k)
    decreases w
  {
    hide Run, Inside, Leaving;
    if w == [] {
      RunEmpty(f, p, q);
      RunEmpty(g, p + k, q + k);
    } else {
      var e := FirstEdge(f, p, w, q);
      RunInRegion(g, f, k, exits, e.to, w[1..], q);
      assert ShiftEdge(e, k) in g.arcs;
      RunStep(g, ShiftEdge(e, k), w[1..], q + k);
      assert [w[0]] + w[1..] == w;
    }
  }

  lemma RegionEdge(g: Nfa, f: Nfa, k: nat, exits: set<nat>, e: Edge)
    requires Region(g, f, k, exits) && e in g.arcs && InRegion(f, k, e.from)
    ensures Leaving(f, k, exits, e) || (Inside(f, k, e) && InRegion(f, k, e.to))
  {
    if Inside(f, k, e) {
      assert Edge(e.from - k, e.lab, e.to - k) in f.arcs;
    }
  }

  /** A path that starts inside and ends outside leaves the copy of f after a path to a final state. */
  lemma {:induction false} Leave(g: Nfa, f: Nfa, k: nat, exits: set<nat>, p: nat, w: seq<Pair>, q: nat)
    returns (w1: seq<Pair>, fin: nat, out: nat, w2: seq<Pair>)
    requires Region(g, f, k, exits) && InRegion(f, k, p) && !InRegion(f, k, q) && Run(g, p, w, q)
    ensures w == w1 + [IDENTITY] + w2 && Run(f, p - k, w1, fin) && fin in f.finals && out in exits && Run(g, out, w2, q)
    decreases w
  {
    hide Run, Region;
    if w == [] {
      RunEmpty(g, p, q);
      assert false;
    } else {
      var e := FirstEdge(g, p, w, q);
      RegionEdge(g, f, k, exits, e);
      if Leaving(f, k, exits, e) {
        RunEmpty(f, p - k, p - k);
        w1, fin, out, w2 := [], p - k, e.to, w[1..];
      } else {
        var x;
        x, fin, out, w2 := Leave(g, f, k, exits, e.to, w[1..], q);
        RunStep(f, Edge(p - k, e.lab, e.to - k), x, fin);
        w1 := [e.lab] + x;
        assert w == [e.lab] + (x + [IDENTITY] + w2);
      }
    }
  }

  /** A copy of f without exits is never left. */
  lemma {:induction false} Stay(g: Nfa, f: Nfa, k: nat, p: nat, w: seq<Pair>, q: nat)
    requires Region(g, f, k, {}) && InRegion(f, k, p) && Run(g, p, w, q)
    ensures InRegion(f, k, q) && Run(f, p - k, w, q - k)
    decreases w
  {
    hide Run, Region;
    if w == [] {
      RunEmpty(g, p, q);
      RunEmpty(f, p - k, p - k);
    } else {
      var e := FirstEdge(g, p, w, q);
      RegionEdge(g, f, k, {}, e);
      Stay(g, f, k, e.to, w[1..], q);
      RunStep(f, Edge(p - k, e.lab, e.to - k), w[1..], q - k);
      assert [w[0]] + w[1..] == w;
    }
  }

  const EMPTY_FSA := Nfa(0, 0, {}, {})

  lemma IntoLanguage(g: Nfa, w: seq<Pair>, f: nat)
    requires Run(g, g.first, w, f) && f in g.finals
    ensures Language(g, w)
  {
  }

  lemma OutOfLanguage(g: Nfa, w: seq<Pair>) returns (f: nat)
    requires Language(g, w)
    ensures Run(g, g.first, w, f) && f in g.finals
  {
    f :| f in g.finals && Run(g, g.first, w, f);
  }

  /** Both constructions make this automaton for a tuple. */
  method WordFsa(a: Word, b: Word) returns (g: Nfa)
    ensures g == Nfa(2, 0, {1}, {Edge(0, (a, b), 1)})
  {
    g := Nfa(2, 0, {1}, {Edge(0, (a, b), 1)});
  }
}
