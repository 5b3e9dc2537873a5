/** The Berry-Sethi construction: no empty labels are added, and the initial state is never entered. */
module BerrySethi {
  import opened Words
  import opened Nfa
  import opened Regexes

  /** State 0 is initial, is left but never entered, and the last state is final. */
  ghost predicate Good(g: Nfa) {
    && g.Valid() && g.first == 0 && g.n >= 1 && g.n - 1 in g.finals
    && (forall e {:trigger e in g.arcs} :: e in g.arcs ==> e.to != 0)
    && (exists e :: e in g.arcs && e.from == 0)
  }

  lemma GoodFacts(g: Nfa)
    requires Good(g)
    ensures g.first == 0 && g.n >= 1 && g.n - 1 in g.finals && forall q {:trigger q in g.finals} :: q in g.finals ==> q < g.n
  {
  }

  lemma EmptyInLanguage(g: Nfa)
    requires g.first == 0
    ensures Language(g, []) <==> 0 in g.finals
  {
    hide Run;
    RunEmpty(g, 0, 0);
    if Language(g, []) {
      var f := OutOfLanguage(g, []);
      RunEmpty(g, 0, f);
    }
    if 0 in g.finals {
      IntoLanguage(g, [], 0);
    }
  }

  // ---------- one tuple ----------

  lemma WordLanguage(a: Word, b: Word, g: Nfa, w: seq<Pair>)
    requires g == Nfa(2, 0, {1}, {Edge(0, (a, b), 1)})
    ensures Good(g) && (Language(g, w) <==> w == [(a, b)])
  {
    var e := Edge(0, (a, b), 1);
    assert e in g.arcs;
    hide Run;
    RunEmpty(g, 1, 1);
    RunStep(g, e, [], 1);
    assert [e.lab] + [] == [(a, b)];
    IntoLanguage(g, [(a, b)], 1);
    if Language(g, w) {
      var f := OutOfLanguage(g, w);
      RunEmpty(g, 0, f);
      assert w != [];
      var c := FirstEdge(g, 0, w, f);
      if w[1..] == [] {
        assert w == [(a, b)];
      } else {
        var d := FirstEdge(g, 1, w[1..], f);
        assert false;
      }
    }
  }

  // ---------- renumbering ----------

  /** The edges that do not start at the initial state, renumbered. */
  function Moved(arcs: set<Edge>, k: nat): set<Edge> {
    set e | e in arcs && e.from != 0 :: Edge(e.from + k, e.lab, e.to + k)
  }

  /** The edges from the initial state, given to f. */
  function Started(arcs: set<Edge>, f: nat, k: nat): set<Edge> {
    set e | e in arcs && e.from == 0 :: Edge(f, e.lab, e.to + k)
  }

  function StartedAll(arcs: set<Edge>, finals: set<nat>, k: nat): set<Edge> {
    set f, e | f in finals && e in arcs && e.from == 0 :: Edge(f, e.lab, e.to + k)
  }

  function MovedStates(states: set<nat>, k: nat): set<nat> {
    set q | q in states :: q + k
  }

  lemma InMoved(arcs: set<Edge>, k: nat, e: Edge)
    ensures e in Moved(arcs, k) <==> e.from > k && e.to >= k && Edge(e.from - k, e.lab, e.to - k) in arcs
  {
    if e.from > k && e.to >= k && Edge(e.from - k, e.lab, e.to - k) in arcs {
      var c := Edge(e.from - k, e.lab, e.to - k);
      assert Edge(c.from + k, c.lab, c.to + k) == e;
    }
  }

  lemma InStarted(arcs: set<Edge>, f: nat, k: nat, e: Edge)
    ensures e in Started(arcs, f, k) <==> e.from == f && e.to >= k && Edge(0, e.lab, e.to - k) in arcs
  {
    if e.from == f && e.to >= k && Edge(0, e.lab, e.to - k) in arcs {
      var c := Edge(0, e.lab, e.to - k);
      assert Edge(f, c.lab, c.to + k) == e;
    }
  }

  lemma InStartedAll(arcs: set<Edge>, finals: set<nat>, k: nat, e: Edge)
    ensures e in StartedAll(arcs, finals, k) <==> e.from in finals && e.to >= k && Edge(0, e.lab, e.to - k) in arcs
  {
    if e.from in finals && e.to >= k && Edge(0, e.lab, e.to - k) in arcs {
      var f, c := e.from, Edge(0, e.lab, e.to - k);
      assert Edge(f, c.lab, c.to + k) == e;
    }
  }

  lemma InMovedStates(states: set<nat>, k: nat, q: nat)
    ensures q in MovedStates(states, k) <==> q >= k && q - k in states
  {
    if q >= k && q - k in states {
      var p: nat := q - k;
      assert p in states && p + k == q;
    }
  }

  /** The edges of the right operand, those from its initial state given to f. */
  method CopyEdges(arcs: set<Edge>, more: set<Edge>, f: nat, k: nat) returns (all: set<Edge>)
    ensures all == arcs + Moved(more, k) + Started(more, f, k)
  {
    hide Moved, Started;
    NothingMoved(f, k);
    all := arcs;
    var todo := more;
    assert more - todo == {};
    while todo != {}
      invariant todo <= more && all == arcs + Moved(more - todo, k) + Started(more - todo, f, k)
    {
      var e :| e in todo;
      var c := Edge(if e.from == 0 then f else e.from + k, e.lab, e.to + k);
      assert more - (todo - {e}) == (more - todo) + {e};
      CopyOne(more - todo, e, f, k);
      todo, all := todo - {e}, all + {c};
    }
    assert more - todo == more;
  }

  lemma NothingMoved(f: nat, k: nat)
    ensures Moved({}, k) == {} && Started({}, f, k) == {}
  {
  }

  lemma MovedOne(arcs: set<Edge>, e: Edge, k: nat)
    ensures Moved(arcs + {e}, k) == Moved(arcs, k) + if e.from == 0 then {} else {Edge(e.from + k, e.lab, e.to + k)}
  {
    hide Moved;
    var one := if e.from == 0 then {} else {Edge(e.from + k, e.lab, e.to + k)};
    forall d ensures d in Moved(arcs + {e}, k) <==> d in Moved(arcs, k) + one {
      InMoved(arcs + {e}, k, d);
      InMoved(arcs, k, d);
    }
  }

  lemma StartedOne(arcs: set<Edge>, e: Edge, f: nat, k: nat)
    ensures Started(arcs + {e}, f, k) == Started(arcs, f, k) + if e.from == 0 then {Edge(f, e.lab, e.to + k)} else {}
  {
    hide Started;
    var one := if e.from == 0 then {Edge(f, e.lab, e.to + k)} else {};
    forall d ensures d in Started(arcs + {e}, f, k) <==> d in Started(arcs, f, k) + one {
      InStarted(arcs + {e}, f, k, d);
      InStarted(arcs, f, k, d);
    }
  }

  lemma CopyOne(arcs: set<Edge>, e: Edge, f: nat, k: nat)
    ensures Moved(arcs + {e}, k) + Started(arcs + {e}, f, k)
      == Moved(arcs, k) + Started(arcs, f, k) + {Edge(if e.from == 0 then f else e.from + k, e.lab, e.to + k)}
  {
    hide Moved, Started;
    MovedOne(arcs, e, k);
    StartedOne(arcs, e, f, k);
  }

  /** The edges from the initial state, given to each of the states. */
  method AddStarts(arcs: set<Edge>, more: set<Edge>, finals: set<nat>, k: nat) returns (all: set<Edge>)
    ensures all == arcs + StartedAll(more, finals, k)
  {
    all := arcs;
    var todo := finals;
    while todo != {}
      invariant todo <= finals && all == arcs + StartedAll(more, finals - todo, k)
    {
      var f :| f in todo;
      ghost var before := all;
      var edges := more;
      while edges != {}
        invariant edges <= more && all == before + Started(more - edges, f, k)
      {
        var e :| e in edges;
        assert more - (edges - {e}) == (more - edges) + {e};
        StartedOne(more - edges, e, f, k);
        edges := edges - {e};
        if e.from == 0 {
          all := all + {Edge(f, e.lab, e.to + k)};
        }
      }
      assert more - edges == more;
      assert finals - (todo - {f}) == (finals - todo) + {f};
      StartAllOne(more, finals - todo, f, k);
      todo := todo - {f};
    }
    assert finals - todo == finals;
  }

  lemma StartAllOne(arcs: set<Edge>, finals: set<nat>, f: nat, k: nat)
    ensures StartedAll(arcs, finals + {f}, k) == StartedAll(arcs, finals, k) + Started(arcs, f, k)
  {
    var x, y := StartedAll(arcs, finals + {f}, k), StartedAll(arcs, finals, k) + Started(arcs, f, k);
    hide Started, StartedAll;
    forall d ensures d in x <==> d in y {
      InStartedAll(arcs, finals + {f}, k, d);
      InStartedAll(arcs, finals, k, d);
      InStarted(arcs, f, k, d);
    }
  }

  method MoveStates(states: set<nat>, more: set<nat>, k: nat) returns (all: set<nat>)
    ensures all == states + MovedStates(more, k)
  {
    all := states;
    var todo := more;
    while todo != {}
      invariant todo <= more && all == states + MovedStates(more - todo, k)
    {
      var q :| q in todo;
      assert more - (todo - {q}) == (more - todo) + {q};
      assert MovedStates((more - todo) + {q}, k) == MovedStates(more - todo, k) + {q + k};
      todo, all := todo - {q}, all + {q + k};
    }
    assert more - todo == more;
  }

  // ---------- concatenation ----------

  /** Every final state of the left operand takes over the edges of the right one's initial state. */
  ghost predicate IsConcat(f1: Nfa, f2: Nfa, g: Nfa)
    requires f1.n >= 1
  {
    && g.n == f1.n + f2.n - 1 && g.first == f1.first
    && g.arcs == f1.arcs + Moved(f2.arcs, f1.n - 1) + StartedAll(f2.arcs, f1.finals, f1.n - 1)
    && g.finals == MovedStates(f2.finals, f1.n - 1) + if f2.first in f2.finals then f1.finals else {}
  }

  method ConcatFsa(f1: Nfa, f2: Nfa) returns (g: Nfa)
    requires f1.Valid()
    ensures f1.finals == {} || f2.finals == {} ==> g == EMPTY_FSA
    ensures f1.finals != {} && f2.finals != {} ==> IsConcat(f1, f2, g)
  {
    hide Moved, Started, StartedAll, MovedStates;
    if f1.finals == {} || f2.finals == {} {
      return EMPTY_FSA;
    }
    var k := f1.n - 1;
    var f :| f in f1.finals;
    var arcs := CopyEdges(f1.arcs, f2.arcs, f, k);
    arcs := AddStarts(arcs, f2.arcs, f1.finals - {f}, k);
    StartAllOne(f2.arcs, f1.finals - {f}, f, k);
    assert f1.finals - {f} + {f} == f1.finals;
    var finals := MoveStates(if f2.first in f2.finals then f1.finals else {}, f2.finals, k);
    g := Nfa(f1.n + f2.n - 1, f1.first, finals, arcs);
  }

  /** Where an edge of the concatenation comes from. */
  lemma ConcatEdge(f1: Nfa, f2: Nfa, g: Nfa, e: Edge)
    requires Good(f1) && Good(f2) && IsConcat(f1, f2, g)
    ensures
      var k := f1.n - 1;
      e in g.arcs <==>
        || e in f1.arcs
        || (e.from > k && e.to > k && Edge(e.from - k, e.lab, e.to - k) in f2.arcs)
        || (e.from in f1.finals && e.to > k && Edge(0, e.lab, e.to - k) in f2.arcs)
  {
    hide Moved, StartedAll;
    InMoved(f2.arcs, f1.n - 1, e);
    InStartedAll(f2.arcs, f1.finals, f1.n - 1, e);
  }

  lemma ConcatFinal(f1: Nfa, f2: Nfa, g: Nfa, q: nat)
    requires Good(f1) && Good(f2) && IsConcat(f1, f2, g)
    ensures q in g.finals <==> (q >= f1.n && q - (f1.n - 1) in f2.finals) || (q in f1.finals && 0 in f2.finals)
  {
    hide MovedStates, Good, Moved, StartedAll;
    GoodFacts(f1);
    GoodFacts(f2);
    InMovedStates(f2.finals, f1.n - 1, q);
  }

  lemma ConcatGood(f1: Nfa, f2: Nfa, g: Nfa)
    requires Good(f1) && Good(f2) && IsConcat(f1, f2, g)
    ensures Good(g) && (0 in g.finals <==> 0 in f1.finals && 0 in f2.finals)
  {
    hide Moved, StartedAll, MovedStates;
    var c :| c in f1.arcs && c.from == 0;
    ConcatEdge(f1, f2, g, c);
    forall e | e in g.arcs ensures e.from < g.n && e.to < g.n && e.to != 0 {
      ConcatEdge(f1, f2, g, e);
    }
    forall q | q in g.finals ensures q < g.n {
      ConcatFinal(f1, f2, g, q);
    }
    ConcatFinal(f1, f2, g, g.n - 1);
    ConcatFinal(f1, f2, g, 0);
  }

  /** A path among the copies of the right operand's states is one of its paths. */
  lemma {:induction false} ConcatRight(f1: Nfa, f2: Nfa, g: Nfa, p: nat, w: seq<Pair>, q: nat)
    requires Good(f1) && Good(f2) && IsConcat(f1, f2, g) && p >= 1
    ensures Run(g, p + (f1.n - 1), w, q) <==> q >= f1.n && Run(f2, p, w, q - (f1.n - 1))
    decreases w
  {
    hide Run, IsConcat;
    var k := f1.n - 1;
    if w == [] {
      RunEmpty(g, p + k, q);
      if q >= f1.n {
        RunEmpty(f2, p, q - k);
      }
    } else {
      if Run(g, p + k, w, q) {
        var e := FirstEdge(g, p + k, w, q);
        ConcatEdge(f1, f2, g, e);
        ConcatRight(f1, f2, g, e.to - k, w[1..], q);
        RunStep(f2, Edge(p, e.lab, e.to - k), w[1..], q - k);
        assert [w[0]] + w[1..] == w;
      }
      if q >= f1.n && Run(f2, p, w, q - k) {
        var e := FirstEdge(f2, p, w, q - k);
        ConcatEdge(f1, f2, g, Edge(p + k, e.lab, e.to + k));
        ConcatRight(f1, f2, g, e.to, w[1..], q);
        RunStep(g, Edge(p + k, e.lab, e.to + k), w[1..], q);
        assert [w[0]] + w[1..] == w;
      }
    }
  }

  /** An accepting path from a state of the left operand: a path to a final state, then a word of the right one. */
  lemma {:induction false} ConcatSplit(f1: Nfa, f2: Nfa, g: Nfa, p: nat, w: seq<Pair>, q: nat) returns (a: seq<Pair>, fin: nat, b: seq<Pair>)
    requires Good(f1) && Good(f2) && IsConcat(f1, f2, g) && p < f1.n && Run(g, p, w, q) && q in g.finals
    ensures w == a + b && Run(f1, p, a, fin) && fin in f1.finals && Language(f2, b)
    decreases w
  {
    hide Run, IsConcat, Language;
    if w == [] {
      RunEmpty(g, p, q);
      ConcatFinal(f1, f2, g, q);
      RunEmpty(f1, p, p);
      EmptyInLanguage(f2);
      a, fin, b := [], p, [];
    } else {
      var e := FirstEdge(g, p, w, q);
      ConcatEdge(f1, f2, g, e);
      if e in f1.arcs {
        var x;
        x, fin, b := ConcatSplit(f1, f2, g, e.to, w[1..], q);
        RunStep(f1, e, x, fin);
        a := [e.lab] + x;
        assert w == [e.lab] + (x + b);
      } else {
        var k := f1.n - 1;
        ConcatRight(f1, f2, g, e.to - k, w[1..], q);
        RunStep(f2, Edge(0, e.lab, e.to - k), w[1..], q - k);
        assert [w[0]] + w[1..] == w;
        ConcatFinal(f1, f2, g, q);
        IntoLanguage(f2, w, q - k);
        RunEmpty(f1, p, p);
        a, fin, b := [], p, w;
        assert w == a + b;
      }
    }
  }

  lemma {:induction false} ConcatLeft(f1: Nfa, f2: Nfa, g: Nfa, p: nat, w: seq<Pair>, q: nat)
    requires Good(f1) && Good(f2) && IsConcat(f1, f2, g) && Run(f1, p, w, q)
    ensures Run(g, p, w, q)
    decreases w
  {
    hide Run, IsConcat;
    if w == [] {
      RunEmpty(f1, p, q);
      RunEmpty(g, p, q);
    } else {
      var e := FirstEdge(f1, p, w, q);
      ConcatEdge(f1, f2, g, e);
      ConcatLeft(f1, f2, g, e.to, w[1..], q);
      RunStep(g, e, w[1..], q);
      assert [w[0]] + w[1..] == w;
    }
  }

  lemma ConcatJoin(f1: Nfa, f2: Nfa, g: Nfa, a: seq<Pair>, b: seq<Pair>)
    requires Good(f1) && Good(f2) && IsConcat(f1, f2, g) && Language(f1, a) && Language(f2, b)
    ensures Language(g, a + b)
  {
    hide Run, IsConcat, Language;
    ConcatGood(f1, f2, g);
    var fin := OutOfLanguage(f1, a);
    var q := OutOfLanguage(f2, b);
    var k := f1.n - 1;
    ConcatLeft(f1, f2, g, 0, a, fin);
    if b == [] {
      RunEmpty(f2, 0, q);
      ConcatFinal(f1, f2, g, fin);
      assert a + b == a;
      IntoLanguage(g, a, fin);
    } else {
      var e := FirstEdge(f2, 0, b, q);
      ConcatEdge(f1, f2, g, Edge(fin, e.lab, e.to + k));
      StaysOut(f2, e.to, b[1..], q);
      ConcatRight(f1, f2, g, e.to, b[1..], q + k);
      RunStep(g, Edge(fin, e.lab, e.to + k), b[1..], q + k);
      assert [b[0]] + b[1..] == b;
      RunJoin(g, 0, a, fin, b, q + k);
      ConcatFinal(f1, f2, g, q + k);
      IntoLanguage(g, a + b, q + k);
    }
  }

  /** The initial state is not entered. */
  lemma {:induction false} StaysOut(g: Nfa, p: nat, w: seq<Pair>, q: nat)
    requires Good(g) && Run(g, p, w, q) && (p != 0 || w != [])
    ensures q != 0
    decreases w
  {
    hide Run;
    if w == [] {
      RunEmpty(g, p, q);
    } else {
      var e := FirstEdge(g, p, w, q);
      StaysOut(g, e.to, w[1..], q);
    }
  }

  lemma ConcatCut(f1: Nfa, f2: Nfa, g: Nfa, w: seq<Pair>) returns (a: seq<Pair>, b: seq<Pair>)
    requires Good(f1) && Good(f2) && IsConcat(f1, f2, g) && Language(g, w)
    ensures w == a + b && Language(f1, a) && Language(f2, b)
  {
    hide Run, IsConcat, Language;
    ConcatGood(f1, f2, g);
    var q := OutOfLanguage(g, w);
    var fin;
    a, fin, b := ConcatSplit(f1, f2, g, 0, w, q);
    IntoLanguage(f1, a, fin);
  }

  // ---------- star and plus ----------

  /** Every final state takes over the edges of the initial one. */
  ghost predicate IsStar(f: Nfa, includeEpsilon: bool, g: Nfa) {
    && g.n == f.n && g.first == f.first
    && g.arcs == f.arcs + StartedAll(f.arcs, f.finals, 0)
    && g.finals == f.finals + if includeEpsilon then {0} else {}
  }

  method KleeneStarFsa(f: Nfa, includeEpsilon: bool) returns (g: Nfa)
    ensures f.finals == {} ==> g == Nfa(0, 0, if includeEpsilon then {0} else {}, {})
    ensures f.finals != {} ==> IsStar(f, includeEpsilon, g)
  {
    hide StartedAll;
    if f.finals == {} {
      return Nfa(0, 0, if includeEpsilon then {0} else {}, {});
    }
    var arcs := AddStarts(f.arcs, f.arcs, f.finals, 0);
    g := Nfa(f.n, f.first, f.finals + if includeEpsilon then {0} else {}, arcs);
  }

  lemma StarEdge(f: Nfa, includeEpsilon: bool, g: Nfa, e: Edge)
    requires IsStar(f, includeEpsilon, g)
    ensures e in g.arcs <==> e in f.arcs || (e.from in f.finals && Edge(0, e.lab, e.to) in f.arcs)
  {
    hide StartedAll;
    InStartedAll(f.arcs, f.finals, 0, e);
  }

  lemma StarGood(f: Nfa, includeEpsilon: bool, g: Nfa)
    requires Good(f) && IsStar(f, includeEpsilon, g)
    ensures Good(g) && (0 in g.finals <==> includeEpsilon || 0 in f.finals)
  {
    hide StartedAll;
    var c :| c in f.arcs && c.from == 0;
    StarEdge(f, includeEpsilon, g, c);
    forall e | e in g.arcs ensures e.from < g.n && e.to < g.n && e.to != 0 {
      StarEdge(f, includeEpsilon, g, e);
    }
  }

  /** Words of f, one after the other. */
  ghost predicate Loops(f: Nfa, w: seq<Pair>)
    decreases |w|
  {
    w == [] || exists i: nat {:trigger w[..i]} :: 0 < i <= |w| && Language(f, w[..i]) && Loops(f, w[i..])
  }

  lemma LoopsMore(f: Nfa, a: seq<Pair>, b: seq<Pair>)
    requires a != [] && Language(f, a) && Loops(f, b)
    ensures Loops(f, a + b)
  {
    var w := a + b;
    assert w[..|a|] == a && w[|a|..] == b;
  }

  lemma LoopsSplit(f: Nfa, w: seq<Pair>) returns (a: seq<Pair>, b: seq<Pair>)
    requires Loops(f, w) && w != []
    ensures a != [] && w == a + b && Language(f, a) && Loops(f, b)
  {
    var i: nat :| 0 < i <= |w| && Language(f, w[..i]) && Loops(f, w[i..]);
    a, b := w[..i], w[i..];
  }

  /** A path of the star is a path of f, or reaches a final state of f and goes on as from the initial state. */
  lemma {:induction false} StarSplit(f: Nfa, includeEpsilon: bool, g: Nfa, p: nat, w: seq<Pair>, q: nat) returns (a: seq<Pair>, fin: nat, b: seq<Pair>)
    requires Good(f) && IsStar(f, includeEpsilon, g) && Run(g, p, w, q)
    ensures w == a + b && Run(f, p, a, fin) && (b == [] ==> fin == q)
    ensures b != [] ==> fin in f.finals && Run(g, 0, b, q)
    ensures b != [] && a == [] ==> p != 0
    decreases w
  {
    hide Run, IsStar;
    if w == [] {
      RunEmpty(g, p, q);
      RunEmpty(f, p, p);
      a, fin, b := [], p, [];
    } else {
      var e := FirstEdge(g, p, w, q);
      StarEdge(f, includeEpsilon, g, e);
      if e in f.arcs {
        var x;
        x, fin, b := StarSplit(f, includeEpsilon, g, e.to, w[1..], q);
        RunStep(f, e, x, fin);
        a := [e.lab] + x;
        assert w == [e.lab] + (x + b);
      } else {
        RunEmpty(f, p, p);
        StarEdge(f, includeEpsilon, g, Edge(0, e.lab, e.to));
        RunStep(g, Edge(0, e.lab, e.to), w[1..], q);
        assert [w[0]] + w[1..] == w;
        a, fin, b := [], p, w;
        assert w == a + b;
      }
    }
  }

  lemma {:induction false} StarSound(f: Nfa, includeEpsilon: bool, g: Nfa, w: seq<Pair>, q: nat)
    requires Good(f) && IsStar(f, includeEpsilon, g) && Run(g, 0, w, q) && q in g.finals
    ensures Loops(f, w)
    decreases |w|
  {
    hide Run, Language, Loops, StartedAll;
    if w == [] {
      LoopsNothing(f);
    } else {
      StarGood(f, includeEpsilon, g);
      StaysOut(g, 0, w, q);
      var a, fin, b := StarSplit(f, includeEpsilon, g, 0, w, q);
      if b == [] {
        LoopsNothing(f);
      } else {
        StarSound(f, includeEpsilon, g, b, q);
      }
      assert a != [];
      IntoLanguage(f, a, fin);
      LoopsMore(f, a, b);
    }
  }

  lemma LoopsNothing(f: Nfa)
    ensures Loops(f, [])
  {
  }

  lemma {:induction false} StarInside(f: Nfa, includeEpsilon: bool, g: Nfa, p: nat, w: seq<Pair>, q: nat)
    requires Good(f) && IsStar(f, includeEpsilon, g) && Run(f, p, w, q)
    ensures Run(g, p, w, q)
    decreases w
  {
    hide Run, IsStar;
    if w == [] {
      RunEmpty(f, p, q);
      RunEmpty(g, p, q);
    } else {
      var e := FirstEdge(f, p, w, q);
      StarEdge(f, includeEpsilon, g, e);
      StarInside(f, includeEpsilon, g, e.to, w[1..], q);
      RunStep(g, e, w[1..], q);
      assert [w[0]] + w[1..] == w;
    }
  }

  /** Words of f follow each other through the edges taken over by the final states. */
  lemma {:induction false} StarComplete(f: Nfa, includeEpsilon: bool, g: Nfa, p: nat, w: seq<Pair>) returns (q: nat)
    requires Good(f) && IsStar(f, includeEpsilon, g) && Loops(f, w) && w != [] && (p == 0 || p in f.finals)
    ensures Run(g, p, w, q) && q in f.finals
    decreases |w|
  {
    hide Run, Language, Loops, IsStar;
    var a, b := LoopsSplit(f, w);
    var fin := OutOfLanguage(f, a);
    var e := FirstEdge(f, 0, a, fin);
    StarEdge(f, includeEpsilon, g, Edge(p, e.lab, e.to));
    StarInside(f, includeEpsilon, g, e.to, a[1..], fin);
    RunStep(g, Edge(p, e.lab, e.to), a[1..], fin);
    assert [a[0]] + a[1..] == a;
    if b == [] {
      assert w == a;
      q := fin;
    } else {
      q := StarComplete(f, includeEpsilon, g, fin, b);
      RunJoin(g, p, a, fin, b, q);
    }
  }

  lemma StarLanguage(f: Nfa, includeEpsilon: bool, g: Nfa, w: seq<Pair>)
    requires Good(f) && IsStar(f, includeEpsilon, g) && w != []
    ensures Language(g, w) <==> Loops(f, w)
  {
    StarGood(f, includeEpsilon, g);
    hide Run, Language, Loops, StartedAll;
    if Language(g, w) {
      var q := OutOfLanguage(g, w);
      StarSound(f, includeEpsilon, g, w, q);
    }
    if Loops(f, w) {
      var q := StarComplete(f, includeEpsilon, g, 0, w);
      IntoLanguage(g, w, q);
    }
  }

  // ---------- union ----------

  predicate HasEdgeFrom(arcs: set<Edge>, q: nat) {
    exists e :: e in arcs && e.from == q
  }

  predicate NoEdgesFrom(g: Nfa, states: set<nat>) {
    forall e :: e in g.arcs ==> e.from !in states
  }

  /** An edge of the left operand, into the common final state if it led to a final one. */
  function LeftEdge(e: Edge, finals: set<nat>, last: nat): Edge {
    Edge(e.from, e.lab, if e.to in finals then last else e.to)
  }

  function RightEdge(e: Edge, finals: set<nat>, k: nat, last: nat): Edge {
    Edge(if e.from == 0 then 0 else e.from + k, e.lab, if e.to in finals then last else e.to + k)
  }

  function LeftEdges(f: Nfa, last: nat): set<Edge> {
    set e | e in f.arcs :: LeftEdge(e, f.finals, last)
  }

  function RightEdges(f: Nfa, k: nat, last: nat): set<Edge> {
    set e | e in f.arcs :: RightEdge(e, f.finals, k, last)
  }

  /** One initial state; one common final state, if no final state of the operands is left by an edge. */
  ghost predicate IsUnion(f1: Nfa, f2: Nfa, g: Nfa)
    requires f1.n >= 1
  {
    var k := f1.n - 1;
    && g.first == f1.first
    && if NoEdgesFrom(f1, f1.finals) && NoEdgesFrom(f2, f2.finals) then
         && g.n == f1.n + f2.n && g.finals == {g.n - 1}
         && g.arcs == LeftEdges(f1, g.n - 1) + RightEdges(f2, k, g.n - 1)
       else
         && g.n == f1.n + f2.n - 1 && g.finals == f1.finals + MovedStates(f2.finals, k)
         && g.arcs == f1.arcs + Moved(f2.arcs, k) + Started(f2.arcs, 0, k)
  }

  method CanOptimizeFinals(f1: Nfa, f2: Nfa) returns (ok: bool)
    ensures ok == (NoEdgesFrom(f1, f1.finals) && NoEdgesFrom(f2, f2.finals))
  {
    ok := true;
    var todo := f1.finals;
    while todo != {} && ok
      invariant todo <= f1.finals
      invariant if ok then NoEdgesFrom(f1, f1.finals - todo) else !NoEdgesFrom(f1, f1.finals)
    {
      var q :| q in todo;
      assert f1.finals - (todo - {q}) == (f1.finals - todo) + {q};
      todo := todo - {q};
      if HasEdgeFrom(f1.arcs, q) {
        ok := false;
      }
    }
    if !ok {
      return;
    }
    assert f1.finals - todo == f1.finals;
    todo := f2.finals;
    while todo != {} && ok
      invariant todo <= f2.finals
      invariant if ok then NoEdgesFrom(f2, f2.finals - todo) else !NoEdgesFrom(f2, f2.finals)
    {
      var q :| q in todo;
      assert f2.finals - (todo - {q}) == (f2.finals - todo) + {q};
      todo := todo - {q};
      if HasEdgeFrom(f2.arcs, q) {
        ok := false;
      }
    }
    if ok {
      assert f2.finals - todo == f2.finals;
    }
  }

  method UnionFsa(f1: Nfa, f2: Nfa) returns (g: Nfa)
    requires f1.Valid()
    ensures f1.finals == {} && f2.finals == {} ==> g == EMPTY_FSA
    ensures f1.finals == {} && f2.finals != {} ==> g == f2
    ensures f1.finals != {} && f2.finals == {} ==> g == f1
    ensures f1.finals != {} && f2.finals != {} ==> IsUnion(f1, f2, g)
  {
    hide Moved, Started, MovedStates, NoEdgesFrom;
    if f1.finals == {} && f2.finals == {} {
      return EMPTY_FSA;
    } else if f1.finals == {} {
      return f2;
    } else if f2.finals == {} {
      return f1;
    }
    var k := f1.n - 1;
    var canOptimizeFinals := CanOptimizeFinals(f1, f2);
    if canOptimizeFinals {
      var n := f1.n + f2.n;
      var arcs: set<Edge> := {};
      var todo := f1.arcs;
      while todo != {}
        invariant todo <= f1.arcs && arcs == set e | e in f1.arcs - todo :: LeftEdge(e, f1.finals, n - 1)
      {
        var e :| e in todo;
        assert f1.arcs - (todo - {e}) == (f1.arcs - todo) + {e};
        todo, arcs := todo - {e}, arcs + {LeftEdge(e, f1.finals, n - 1)};
      }
      assert f1.arcs - todo == f1.arcs;
      ghost var left := arcs;
      todo := f2.arcs;
      while todo != {}
        invariant todo <= f2.arcs && arcs == left + set e | e in f2.arcs - todo :: RightEdge(e, f2.finals, k, n - 1)
      {
        var e :| e in todo;
        assert f2.arcs - (todo - {e}) == (f2.arcs - todo) + {e};
        todo, arcs := todo - {e}, arcs + {RightEdge(e, f2.finals, k, n - 1)};
      }
      assert f2.arcs - todo == f2.arcs;
      g := Nfa(n, f1.first, {n - 1}, arcs);
    } else {
      var arcs := CopyEdges(f1.arcs, f2.arcs, 0, k);
      var finals := MoveStates(f1.finals, f2.finals, k);
      g := Nfa(f1.n + f2.n - 1, f1.first, finals, arcs);
    }
  }

  predicate Optimized(f1: Nfa, f2: Nfa) {
    NoEdgesFrom(f1, f1.finals) && NoEdgesFrom(f2, f2.finals)
  }

  lemma OptimizedEdge(f1: Nfa, f2: Nfa, g: Nfa, e: Edge)
    requires f1.n >= 1 && IsUnion(f1, f2, g) && Optimized(f1, f2)
    ensures e in g.arcs <==>
      || (exists c :: c in f1.arcs && e == LeftEdge(c, f1.finals, g.n - 1))
      || (exists c :: c in f2.arcs && e == RightEdge(c, f2.finals, f1.n - 1, g.n - 1))
  {
  }

  lemma PlainEdge(f1: Nfa, f2: Nfa, g: Nfa, e: Edge)
    requires Good(f1) && Good(f2) && IsUnion(f1, f2, g) && !Optimized(f1, f2)
    ensures
      var k := f1.n - 1;
      e in g.arcs <==>
        || e in f1.arcs
        || (e.from > k && e.to > k && Edge(e.from - k, e.lab, e.to - k) in f2.arcs)
        || (e.from == 0 && e.to > k && Edge(0, e.lab, e.to - k) in f2.arcs)
  {
    hide Moved, Started, NoEdgesFrom;
    InMoved(f2.arcs, f1.n - 1, e);
    InStarted(f2.arcs, 0, f1.n - 1, e);
  }

  lemma TwoStates(g: Nfa)
    requires Good(g)
    ensures g.n >= 2
  {
    var c :| c in g.arcs && c.from == 0;
    assert c.to != 0 && c.to < g.n;
  }

  lemma PlainFinal(f1: Nfa, f2: Nfa, g: Nfa, q: nat)
    requires Good(f1) && Good(f2) && IsUnion(f1, f2, g) && !Optimized(f1, f2)
    ensures f1.n >= 2 && (q in g.finals <==> q in f1.finals || (q >= f1.n && q - (f1.n - 1) in f2.finals))
  {
    hide Good, Moved, Started, MovedStates, NoEdgesFrom, LeftEdges, RightEdges;
    TwoStates(f1);
    GoodFacts(f1);
    GoodFacts(f2);
    InMovedStates(f2.finals, f1.n - 1, q);
  }

  lemma PlainGood(f1: Nfa, f2: Nfa, g: Nfa)
    requires Good(f1) && Good(f2) && IsUnion(f1, f2, g) && !Optimized(f1, f2)
    ensures Good(g) && g.n == f1.n + f2.n - 1 && (0 in g.finals <==> 0 in f1.finals)
  {
    hide Moved, Started, MovedStates, NoEdgesFrom, LeftEdges, RightEdges;
    var c :| c in f1.arcs && c.from == 0;
    PlainEdge(f1, f2, g, c);
    forall e | e in g.arcs ensures e.from < g.n && e.to < g.n && e.to != 0 {
      PlainEdge(f1, f2, g, e);
    }
    forall q | q in g.finals ensures q < g.n {
      PlainFinal(f1, f2, g, q);
    }
    PlainFinal(f1, f2, g, g.n - 1);
    PlainFinal(f1, f2, g, 0);
  }

  /** Away from the initial state, a path among the left operand's states is one of its paths. */
  lemma {:induction false} PlainLeft(f1: Nfa, f2: Nfa, g: Nfa, p: nat, w: seq<Pair>, q: nat)
    requires Good(f1) && Good(f2) && IsUnion(f1, f2, g) && !Optimized(f1, f2) && 1 <= p < f1.n
    ensures Run(g, p, w, q) <==> Run(f1, p, w, q)
    ensures Run(f1, p, w, q) ==> q < f1.n
    decreases w
  {
    hide Run, IsUnion, NoEdgesFrom;
    if w == [] {
      RunEmpty(g, p, q);
      RunEmpty(f1, p, q);
    } else {
      if Run(g, p, w, q) {
        var e := FirstEdge(g, p, w, q);
        PlainEdge(f1, f2, g, e);
        PlainLeft(f1, f2, g, e.to, w[1..], q);
        RunStep(f1, e, w[1..], q);
        assert [w[0]] + w[1..] == w;
      }
      if Run(f1, p, w, q) {
        var e := FirstEdge(f1, p, w, q);
        PlainEdge(f1, f2, g, e);
        PlainLeft(f1, f2, g, e.to, w[1..], q);
        RunStep(g, e, w[1..], q);
        assert [w[0]] + w[1..] == w;
      }
    }
  }

  lemma {:induction false} PlainRight(f1: Nfa, f2: Nfa, g: Nfa, p: nat, w: seq<Pair>, q: nat)
    requires Good(f1) && Good(f2) && IsUnion(f1, f2, g) && !Optimized(f1, f2) && p >= 1
    ensures Run(g, p + (f1.n - 1), w, q) <==> q >= f1.n && Run(f2, p, w, q - (f1.n - 1))
    decreases w
  {
    hide Run, IsUnion, NoEdgesFrom;
    var k := f1.n - 1;
    if w == [] {
      RunEmpty(g, p + k, q);
      if q >= f1.n {
        RunEmpty(f2, p, q - k);
      }
    } else {
      if Run(g, p + k, w, q) {
        var e := FirstEdge(g, p + k, w, q);
        PlainEdge(f1, f2, g, e);
        PlainRight(f1, f2, g, e.to - k, w[1..], q);
        RunStep(f2, Edge(p, e.lab, e.to - k), w[1..], q - k);
        assert [w[0]] + w[1..] == w;
      }
      if q >= f1.n && Run(f2, p, w, q - k) {
        var e := FirstEdge(f2, p, w, q - k);
        PlainEdge(f1, f2, g, Edge(p + k, e.lab, e.to + k));
        PlainRight(f1, f2, g, e.to, w[1..], q);
        RunStep(g, Edge(p + k, e.lab, e.to + k), w[1..], q);
        assert [w[0]] + w[1..] == w;
      }
    }
  }

  lemma PlainSound(f1: Nfa, f2: Nfa, g: Nfa, w: seq<Pair>)
    requires Good(f1) && Good(f2) && IsUnion(f1, f2, g) && !Optimized(f1, f2) && w != [] && Language(g, w)
    ensures Language(f1, w) || Language(f2, w)
  {
    hide Run, IsUnion, NoEdgesFrom, Language;
    PlainGood(f1, f2, g);
    var k := f1.n - 1;
    var q := OutOfLanguage(g, w);
    var e := FirstEdge(g, 0, w, q);
    PlainEdge(f1, f2, g, e);
    PlainFinal(f1, f2, g, q);
    assert [w[0]] + w[1..] == w;
    if e in f1.arcs {
      PlainLeft(f1, f2, g, e.to, w[1..], q);
      RunStep(f1, e, w[1..], q);
      IntoLanguage(f1, w, q);
    } else {
      PlainRight(f1, f2, g, e.to - k, w[1..], q);
      RunStep(f2, Edge(0, e.lab, e.to - k), w[1..], q - k);
      IntoLanguage(f2, w, q - k);
    }
  }

  lemma PlainComplete(f1: Nfa, f2: Nfa, g: Nfa, w: seq<Pair>)
    requires Good(f1) && Good(f2) && IsUnion(f1, f2, g) && !Optimized(f1, f2) && w != [] && (Language(f1, w) || Language(f2, w))
    ensures Language(g, w)
  {
    hide Run, IsUnion, NoEdgesFrom, Language;
    PlainGood(f1, f2, g);
    var k := f1.n - 1;
    assert [w[0]] + w[1..] == w;
    if Language(f1, w) {
      var q := OutOfLanguage(f1, w);
      var e := FirstEdge(f1, 0, w, q);
      PlainEdge(f1, f2, g, e);
      PlainLeft(f1, f2, g, e.to, w[1..], q);
      RunStep(g, e, w[1..], q);
      PlainFinal(f1, f2, g, q);
      IntoLanguage(g, w, q);
    } else {
      var q := OutOfLanguage(f2, w);
      var e := FirstEdge(f2, 0, w, q);
      PlainEdge(f1, f2, g, Edge(0, e.lab, e.to + k));
      StaysOut(f2, e.to, w[1..], q);
      PlainRight(f1, f2, g, e.to, w[1..], q + k);
      RunStep(g, Edge(0, e.lab, e.to + k), w[1..], q + k);
      PlainFinal(f1, f2, g, q + k);
      IntoLanguage(g, w, q + k);
    }
  }

  // ---------- union with one common final state ----------

  lemma NotEntered(g: Nfa, e: Edge)
    requires Good(g) && e in g.arcs
    ensures 0 < e.to < g.n && e.from < g.n
  {
  }

  lemma OptimizedFacts(f1: Nfa, f2: Nfa, g: Nfa)
    requires Good(f1) && Good(f2) && IsUnion(f1, f2, g) && Optimized(f1, f2)
    ensures g.n == f1.n + f2.n && g.finals == {g.n - 1} && g.first == 0 && g.n >= 4
    ensures 0 !in f1.finals && 0 !in f2.finals
  {
    hide LeftEdges, RightEdges, MovedStates, Moved, Started;
    var c :| c in f1.arcs && c.from == 0;
    var d :| d in f2.arcs && d.from == 0;
    assert c.to != 0 && d.to != 0;
  }

  /** Where an edge of the union comes from: from the left operand or from the right one, renumbered. */
  lemma OptimizedEdgeFrom(f1: Nfa, f2: Nfa, g: Nfa, e: Edge) returns (left: bool, c: Edge)
    requires Good(f1) && Good(f2) && IsUnion(f1, f2, g) && Optimized(f1, f2) && e in g.arcs
    ensures left ==> c in f1.arcs && e == LeftEdge(c, f1.finals, g.n - 1)
    ensures !left ==> c in f2.arcs && e == RightEdge(c, f2.finals, f1.n - 1, g.n - 1)
  {
    hide IsUnion, Optimized, LeftEdge, RightEdge, Good;
    OptimizedFacts(f1, f2, g);
    GoodFacts(f1);
    OptimizedEdge(f1, f2, g, e);
    if x :| x in f1.arcs && e == LeftEdge(x, f1.finals, g.n - 1) {
      left, c := true, x;
    } else {
      left := false;
      c :| c in f2.arcs && e == RightEdge(c, f2.finals, f1.n - 1, g.n - 1);
    }
  }

  lemma OptimizedGood(f1: Nfa, f2: Nfa, g: Nfa)
    requires Good(f1) && Good(f2) && IsUnion(f1, f2, g) && Optimized(f1, f2)
    ensures Good(g) && forall e :: e in g.arcs ==> e.from < g.n - 1
  {
    OptimizedFacts(f1, f2, g);
    hide IsUnion, Optimized;
    var d :| d in f1.arcs && d.from == 0;
    OptimizedEdge(f1, f2, g, LeftEdge(d, f1.finals, g.n - 1));
    forall e | e in g.arcs ensures e.from < g.n - 1 && e.to < g.n && e.to != 0 {
      var left, c := OptimizedEdgeFrom(f1, f2, g, e);
    }
    assert LeftEdge(d, f1.finals, g.n - 1) in g.arcs;
  }

  lemma NoWayOn(g: Nfa, p: nat, w: seq<Pair>, q: nat)
    requires Run(g, p, w, q) && forall e: Edge :: e in g.arcs ==> e.from != p
    ensures w == [] && q == p
  {
    hide Run;
    if w == [] {
      RunEmpty(g, p, q);
    } else {
      var e := FirstEdge(g, p, w, q);
      assert false;
    }
  }

  lemma LeftEdgeFacts(f1: Nfa, f2: Nfa, g: Nfa, e: Edge, left: bool, c: Edge)
    requires Good(f1) && Good(f2) && 1 <= e.from < f1.n && g.n >= 1
    requires left ==> c in f1.arcs && e == LeftEdge(c, f1.finals, g.n - 1)
    requires !left ==> c in f2.arcs && e == RightEdge(c, f2.finals, f1.n - 1, g.n - 1)
    ensures left && c in f1.arcs && c.lab == e.lab && c.from == e.from && 1 <= c.to < f1.n
    ensures e.to == if c.to in f1.finals then g.n - 1 else c.to
  {
  }

  lemma {:induction false} OptimizedLeft(f1: Nfa, f2: Nfa, g: Nfa, p: nat, w: seq<Pair>) returns (fin: nat)
    requires Good(f1) && Good(f2) && IsUnion(f1, f2, g) && Optimized(f1, f2) && 1 <= p < f1.n && Run(g, p, w, g.n - 1)
    ensures fin in f1.finals && Run(f1, p, w, fin)
    decreases w
  {
    hide Run, IsUnion, Optimized, Good;
    OptimizedFacts(f1, f2, g);
    GoodFacts(f2);
    OptimizedGood(f1, f2, g);
    RunEmpty(g, p, g.n - 1);
    if w == [] {
      assert false;
    } else {
      var e := FirstEdge(g, p, w, g.n - 1);
      var left, c := OptimizedEdgeFrom(f1, f2, g, e);
      LeftEdgeFacts(f1, f2, g, e, left, c);
      if c.to in f1.finals {
        NoWayOn(g, e.to, w[1..], g.n - 1);
        RunEmpty(f1, c.to, c.to);
        fin := c.to;
      } else {
        fin := OptimizedLeft(f1, f2, g, e.to, w[1..]);
      }
      RunStep(f1, c, w[1..], fin);
      assert [w[0]] + w[1..] == w;
    }
  }

  lemma RightEdgeFacts(f1: Nfa, f2: Nfa, g: Nfa, e: Edge, left: bool, c: Edge)
    requires Good(f1) && Good(f2) && e.from >= f1.n && g.n >= 1
    requires left ==> c in f1.arcs && e == LeftEdge(c, f1.finals, g.n - 1)
    requires !left ==> c in f2.arcs && e == RightEdge(c, f2.finals, f1.n - 1, g.n - 1)
    ensures !left && c in f2.arcs && c.lab == e.lab && c.from == e.from - (f1.n - 1) && 1 <= c.to < f2.n
    ensures e.to == if c.to in f2.finals then g.n - 1 else c.to + (f1.n - 1)
  {
  }

  lemma {:induction false} OptimizedRight(f1: Nfa, f2: Nfa, g: Nfa, p: nat, w: seq<Pair>) returns (fin: nat)
    requires Good(f1) && Good(f2) && IsUnion(f1, f2, g) && Optimized(f1, f2) && 1 <= p < f2.n && Run(g, p + (f1.n - 1), w, g.n - 1)
    ensures fin in f2.finals && Run(f2, p, w, fin)
    decreases w
  {
    hide Run, IsUnion, Optimized, Good, LeftEdge, RightEdge;
    OptimizedFacts(f1, f2, g);
    OptimizedGood(f1, f2, g);
    RunEmpty(g, p + (f1.n - 1), g.n - 1);
    if w == [] {
      assert false;
    } else {
      var e := FirstEdge(g, p + (f1.n - 1), w, g.n - 1);
      var left, c := OptimizedEdgeFrom(f1, f2, g, e);
      RightEdgeFacts(f1, f2, g, e, left, c);
      if c.to in f2.finals {
        NoWayOn(g, e.to, w[1..], g.n - 1);
        RunEmpty(f2, c.to, c.to);
        fin := c.to;
      } else {
        fin := OptimizedRight(f1, f2, g, c.to, w[1..]);
      }
      RunStep(f2, c, w[1..], fin);
      assert [w[0]] + w[1..] == w;
    }
  }

  lemma StartEdgeFacts(f1: Nfa, f2: Nfa, g: Nfa, e: Edge, left: bool, c: Edge)
    requires Good(f1) && Good(f2) && e.from == 0 && g.n >= 1
    requires left ==> c in f1.arcs && e == LeftEdge(c, f1.finals, g.n - 1)
    requires !left ==> c in f2.arcs && e == RightEdge(c, f2.finals, f1.n - 1, g.n - 1)
    ensures c.lab == e.lab && c.from == 0
    ensures left ==> 1 <= c.to < f1.n && e.to == if c.to in f1.finals then g.n - 1 else c.to
    ensures !left ==> 1 <= c.to < f2.n && e.to == if c.to in f2.finals then g.n - 1 else c.to + (f1.n - 1)
  {
  }

  /** From a first edge of f, whose target has become the final state or leads on to a final state of f. */
  lemma StartsWord(f: Nfa, c: Edge, w: seq<Pair>, fin: nat)
    requires Good(f) && c in f.arcs && c.from == 0 && w != [] && c.lab == w[0] && Run(f, c.to, w[1..], fin) && fin in f.finals
    ensures Language(f, w)
  {
    hide Run, Language;
    RunStep(f, c, w[1..], fin);
    assert [w[0]] + w[1..] == w;
    IntoLanguage(f, w, fin);
  }

  lemma OptimizedSound(f1: Nfa, f2: Nfa, g: Nfa, w: seq<Pair>)
    requires Good(f1) && Good(f2) && IsUnion(f1, f2, g) && Optimized(f1, f2) && w != [] && Language(g, w)
    ensures Language(f1, w) || Language(f2, w)
  {
    hide Run, IsUnion, Optimized, Language, Good, LeftEdge, RightEdge;
    OptimizedFacts(f1, f2, g);
    OptimizedGood(f1, f2, g);
    var q := OutOfLanguage(g, w);
    var e := FirstEdge(g, 0, w, q);
    var left, c := OptimizedEdgeFrom(f1, f2, g, e);
    StartEdgeFacts(f1, f2, g, e, left, c);
    var f := if left then f1 else f2;
    var fin;
    if c.to in f.finals {
      NoWayOn(g, e.to, w[1..], q);
      fin := c.to;
      RunEmpty(f, fin, fin);
    } else if left {
      fin := OptimizedLeft(f1, f2, g, e.to, w[1..]);
    } else {
      fin := OptimizedRight(f1, f2, g, c.to, w[1..]);
    }
    StartsWord(f, c, w, fin);
  }

  lemma {:induction false} OptimizedComplete(f1: Nfa, f2: Nfa, g: Nfa, left: bool, p: nat, w: seq<Pair>, fin: nat)
    requires Good(f1) && Good(f2) && IsUnion(f1, f2, g) && Optimized(f1, f2) && w != []
    requires var f := if left then f1 else f2; Run(f, p, w, fin) && fin in f.finals
    ensures Run(g, if left || p == 0 then p else p + (f1.n - 1), w, g.n - 1)
    decreases w
  {
    hide Run, IsUnion, Optimized, Good;
    OptimizedFacts(f1, f2, g);
    GoodFacts(f1);
    GoodFacts(f2);
    var f := if left then f1 else f2;
    var e := FirstEdge(f, p, w, fin);
    NotEntered(f, e);
    if e.to in f.finals {
      OptimizedStops(f1, f2, left, e.to, w[1..], fin);
    }
    var c := if left then LeftEdge(e, f1.finals, g.n - 1) else RightEdge(e, f2.finals, f1.n - 1, g.n - 1);
    OptimizedEdge(f1, f2, g, c);
    if e.to in f.finals {
      RunEmpty(g, g.n - 1, g.n - 1);
    } else {
      RunEmpty(f, e.to, fin);
      OptimizedComplete(f1, f2, g, left, e.to, w[1..], fin);
    }
    RunStep(g, c, w[1..], g.n - 1);
    assert [w[0]] + w[1..] == w;
  }

  lemma OptimizedStops(f1: Nfa, f2: Nfa, left: bool, p: nat, w: seq<Pair>, q: nat)
    requires Optimized(f1, f2)
    requires var f := if left then f1 else f2; Run(f, p, w, q) && p in f.finals
    ensures w == [] && q == p
  {
    hide Run;
    var f := if left then f1 else f2;
    NoWayOn(f, p, w, q);
  }

  /** The union has the words of both operands, except that the empty word counts only on the left. */
  lemma UnionLanguage(f1: Nfa, f2: Nfa, g: Nfa, w: seq<Pair>)
    requires Good(f1) && Good(f2) && IsUnion(f1, f2, g)
    ensures Good(g)
    ensures Language(g, w) <==> Language(f1, w) || (w != [] && Language(f2, w))
  {
    hide Run, IsUnion, Optimized, Language;
    EmptyInLanguage(f1);
    if Optimized(f1, f2) {
      OptimizedFacts(f1, f2, g);
      OptimizedGood(f1, f2, g);
      EmptyInLanguage(g);
      if w != [] && Language(g, w) {
        OptimizedSound(f1, f2, g, w);
      }
      if w != [] && Language(f1, w) {
        var fin := OutOfLanguage(f1, w);
        OptimizedComplete(f1, f2, g, true, 0, w, fin);
        IntoLanguage(g, w, g.n - 1);
      }
      if w != [] && Language(f2, w) {
        var fin := OutOfLanguage(f2, w);
        OptimizedComplete(f1, f2, g, false, 0, w, fin);
        IntoLanguage(g, w, g.n - 1);
      }
    } else {
      PlainGood(f1, f2, g);
      EmptyInLanguage(g);
      if w != [] && Language(g, w) {
        PlainSound(f1, f2, g, w);
      }
      if w != [] && (Language(f1, w) || Language(f2, w)) {
        PlainComplete(f1, f2, g, w);
      }
    }
  }

  /** At one union, nothing is lost exactly when a nullable right operand comes with a nullable left one. */
  lemma UnionIsExactIff(f1: Nfa, f2: Nfa, g: Nfa)
    requires Good(f1) && Good(f2) && IsUnion(f1, f2, g)
    ensures (forall w {:trigger Language(g, w)} :: Language(g, w) <==> Language(f1, w) || Language(f2, w)) <==> (0 in f2.finals ==> 0 in f1.finals)
  {
    hide Run, IsUnion, Language;
    EmptyInLanguage(f1);
    EmptyInLanguage(f2);
    var e: seq<Pair> := [];
    UnionLanguage(f1, f2, g, e);
    if 0 in f2.finals ==> 0 in f1.finals {
      forall w ensures Language(g, w) <==> Language(f1, w) || Language(f2, w) {
        UnionLanguage(f1, f2, g, w);
      }
    } else {
      assert !(Language(g, e) <==> Language(f1, e) || Language(f2, e));
    }
  }

  // ---------- the construction ----------

  /** The initial state of the automaton built for r is final. */
  predicate StartFinal(r: Regex) {
    match r
    case Tuple(_, _) => false
    case Union(x, _) => StartFinal(x)
    case Concat(x, y) => StartFinal(x) && StartFinal(y)
    case Star(_) => true
    case Plus(c) => StartFinal(c)
  }

  predicate Nullable(r: Regex) {
    match r
    case Tuple(_, _) => false
    case Union(x, y) => Nullable(x) || Nullable(y)
    case Concat(x, y) => Nullable(x) && Nullable(y)
    case Star(_) => true
    case Plus(c) => Nullable(c)
  }

  lemma {:induction false} NullableSpells(r: Regex)
    ensures Nullable(r) <==> Spells(r, [])
    decreases r
  {
    var e: seq<Pair> := [];
    match r
    case Tuple(a, b) => SpellsOne(r);
    case Union(x, y) =>
      NullableSpells(x);
      NullableSpells(y);
      SpellsUnion(x, y, e);
    case Concat(x, y) =>
      NullableSpells(x);
      NullableSpells(y);
      if Nullable(r) {
        SpellsConcat(x, y, e, e);
        assert e + e == e;
      }
      if Spells(r, e) {
        var a, b := SplitConcat(x, y, e);
        assert a == e && b == e;
      }
    case Star(c) => SpellsStar(c, e);
    case Plus(c) =>
      NullableSpells(c);
      SpellsStar(c, e);
      if Nullable(r) {
        RepeatsMore(c, e, e);
        assert e + e == e;
      }
      if Spells(r, e) {
        var a, b := SplitPlus(c, e);
        assert a == e;
      }
  }

  /** The empty word is lost at the top. */
  predicate Loses(r: Regex) {
    Nullable(r) && !StartFinal(r)
  }

  /** No nonempty word is lost: the operands of concatenations keep their empty words. */
  predicate KeepsWords(r: Regex) {
    match r
    case Tuple(_, _) => true
    case Union(x, y) => KeepsWords(x) && KeepsWords(y)
    case Concat(x, y) => KeepsWords(x) && KeepsWords(y) && !Loses(x) && !Loses(y)
    case Star(c) => KeepsWords(c)
    case Plus(c) => KeepsWords(c)
  }

  /** In every union a nullable right operand comes with a nullable left one. */
  predicate NullableLeft(r: Regex) {
    match r
    case Tuple(_, _) => true
    case Union(x, y) => NullableLeft(x) && NullableLeft(y) && (Nullable(y) ==> Nullable(x))
    case Concat(x, y) => NullableLeft(x) && NullableLeft(y)
    case Star(c) => NullableLeft(c)
    case Plus(c) => NullableLeft(c)
  }

  lemma {:induction false} NullableLeftKeeps(r: Regex)
    requires NullableLeft(r)
    ensures KeepsWords(r) && !Loses(r)
    decreases r
  {
    match r
    case Tuple(_, _) =>
    case Union(x, y) => NullableLeftKeeps(x); NullableLeftKeeps(y);
    case Concat(x, y) => NullableLeftKeeps(x); NullableLeftKeeps(y);
    case Star(c) => NullableLeftKeeps(c);
    case Plus(c) => NullableLeftKeeps(c);
  }

  // ---------- what the construction keeps ----------

  /** The sequences of tuples that are kept: the right operand of a union contributes nonempty ones only. */
  ghost predicate Kept(r: Regex, w: seq<Pair>)
    decreases r, |w|, 0
  {
    match r
    case Tuple(a, b) => w == [(a, b)]
    case Union(x, y) => Kept(x, w) || (w != [] && Kept(y, w))
    case Concat(x, y) => exists i: nat {:trigger w[..i]} :: i <= |w| && Kept(x, w[..i]) && Kept(y, w[i..])
    case Star(c) => KeptRepeats(c, w)
    case Plus(c) => exists i: nat {:trigger w[..i]} :: i <= |w| && Kept(c, w[..i]) && KeptRepeats(c, w[i..])
  }

  ghost predicate KeptRepeats(c: Regex, w: seq<Pair>)
    decreases c, |w|, 1
  {
    w == [] || exists i: nat {:trigger w[..i]} :: 0 < i <= |w| && Kept(c, w[..i]) && KeptRepeats(c, w[i..])
  }

  lemma KeptOne(a: Word, b: Word, w: seq<Pair>)
    ensures Kept(Tuple(a, b), w) <==> w == [(a, b)]
  {
  }

  lemma KeptUnion(x: Regex, y: Regex, w: seq<Pair>)
    ensures Kept(Union(x, y), w) <==> Kept(x, w) || (w != [] && Kept(y, w))
  {
  }

  lemma KeptConcat(x: Regex, y: Regex, a: seq<Pair>, b: seq<Pair>)
    requires Kept(x, a) && Kept(y, b)
    ensures Kept(Concat(x, y), a + b)
  {
    var w := a + b;
    assert w[..|a|] == a && w[|a|..] == b;
  }

  lemma KeptConcatSplit(x: Regex, y: Regex, w: seq<Pair>) returns (a: seq<Pair>, b: seq<Pair>)
    requires Kept(Concat(x, y), w)
    ensures w == a + b && Kept(x, a) && Kept(y, b)
  {
    var i: nat :| i <= |w| && Kept(x, w[..i]) && Kept(y, w[i..]);
    a, b := w[..i], w[i..];
  }

  lemma KeptMore(c: Regex, a: seq<Pair>, b: seq<Pair>)
    requires Kept(c, a) && KeptRepeats(c, b)
    ensures KeptRepeats(c, a + b) && Kept(Plus(c), a + b)
  {
    var w := a + b;
    assert w[..|a|] == a && w[|a|..] == b;
    if a == [] {
      assert w == b;
    }
  }

  lemma KeptPlusSplit(c: Regex, w: seq<Pair>) returns (a: seq<Pair>, b: seq<Pair>)
    requires Kept(Plus(c), w)
    ensures w == a + b && Kept(c, a) && KeptRepeats(c, b)
  {
    var i: nat :| i <= |w| && Kept(c, w[..i]) && KeptRepeats(c, w[i..]);
    a, b := w[..i], w[i..];
  }

  lemma KeptRepeatsSplit(c: Regex, w: seq<Pair>) returns (a: seq<Pair>, b: seq<Pair>)
    requires KeptRepeats(c, w) && w != []
    ensures w == a + b && a != [] && Kept(c, a) && KeptRepeats(c, b)
  {
    var i: nat :| 0 < i <= |w| && Kept(c, w[..i]) && KeptRepeats(c, w[i..]);
    a, b := w[..i], w[i..];
  }

  lemma KeptStar(c: Regex, w: seq<Pair>)
    ensures Kept(Star(c), w) <==> KeptRepeats(c, w)
    ensures KeptRepeats(c, [])
  {
  }

  /** Nothing is kept that is not spelled. */
  lemma {:induction false} KeptIsSpelled(r: Regex, w: seq<Pair>)
    requires Kept(r, w)
    ensures Spells(r, w)
    decreases r, |w|, 0
  {
    hide Kept, KeptRepeats, Spells, Repeats;
    match r
    case Tuple(a, b) => KeptOne(a, b, w); SpellsOne(r);
    case Union(x, y) =>
      KeptUnion(x, y, w);
      SpellsUnion(x, y, w);
      if Kept(x, w) {
        KeptIsSpelled(x, w);
      } else {
        KeptIsSpelled(y, w);
      }
    case Concat(x, y) =>
      var a, b := KeptConcatSplit(x, y, w);
      KeptIsSpelled(x, a);
      KeptIsSpelled(y, b);
      SpellsConcat(x, y, a, b);
    case Star(c) =>
      KeptStar(c, w);
      KeptRepeatsAreSpelled(c, w);
      SpellsStar(c, w);
    case Plus(c) =>
      var a, b := KeptPlusSplit(c, w);
      KeptIsSpelled(c, a);
      KeptRepeatsAreSpelled(c, b);
      RepeatsMore(c, a, b);
  }

  lemma {:induction false} KeptRepeatsAreSpelled(c: Regex, w: seq<Pair>)
    requires KeptRepeats(c, w)
    ensures Repeats(c, w)
    decreases c, |w|, 1
  {
    hide Kept, KeptRepeats, Spells, Repeats;
    SpellsStar(c, w);
    if w != [] {
      var a, b := KeptRepeatsSplit(c, w);
      KeptIsSpelled(c, a);
      KeptRepeatsAreSpelled(c, b);
      RepeatsMore(c, a, b);
    }
  }

  /** What is spelled is kept, as far as no operand of a concatenation loses its empty word. */
  lemma {:induction false} SpelledIsKept(r: Regex, w: seq<Pair>)
    requires KeepsWords(r) && Spells(r, w) && (w == [] ==> !Loses(r))
    ensures Kept(r, w)
    decreases r, |w|, 0
  {
    hide Kept, KeptRepeats, Spells, Repeats;
    if w == [] {
      NullableSpells(r);
      KeptEmpty(r);
    } else {
      match r
      case Tuple(a, b) => KeptOne(a, b, w); SpellsOne(r);
      case Union(x, y) =>
        KeptUnion(x, y, w);
        SpellsUnion(x, y, w);
        if Spells(x, w) {
          SpelledIsKept(x, w);
        } else {
          SpelledIsKept(y, w);
        }
      case Concat(x, y) =>
        var a, b := SplitConcat(x, y, w);
        SpelledIsKept(x, a);
        SpelledIsKept(y, b);
        KeptConcat(x, y, a, b);
      case Star(c) =>
        SpellsStar(c, w);
        SpelledRepeatsAreKept(c, w);
        KeptStar(c, w);
      case Plus(c) =>
        var a, b := SplitPlus(c, w);
        RepeatsMore(c, a, b);
        SpelledRepeatsAreKept(c, w);
        var a', b' := KeptRepeatsSplit(c, w);
        KeptMore(c, a', b');
    }
  }

  lemma {:induction false} SpelledRepeatsAreKept(c: Regex, w: seq<Pair>)
    requires KeepsWords(c) && Repeats(c, w)
    ensures KeptRepeats(c, w)
    decreases c, |w|, 1
  {
    hide Kept, KeptRepeats, Spells, Repeats;
    KeptStar(c, w);
    SpellsStar(c, w);
    if w != [] {
      var a, b := SplitRepeats(c, w);
      SpelledIsKept(c, a);
      SpelledRepeatsAreKept(c, b);
      KeptMore(c, a, b);
    }
  }

  lemma {:induction false} KeptEmpty(r: Regex)
    ensures Kept(r, []) <==> StartFinal(r)
    decreases r
  {
    hide Kept, KeptRepeats;
    var e: seq<Pair> := [];
    match r
    case Tuple(a, b) => KeptOne(a, b, e);
    case Union(x, y) => KeptEmpty(x); KeptUnion(x, y, e);
    case Concat(x, y) =>
      KeptEmpty(x);
      KeptEmpty(y);
      if StartFinal(r) {
        KeptConcat(x, y, e, e);
        assert e + e == e;
      }
      if Kept(r, e) {
        var a, b := KeptConcatSplit(x, y, e);
        assert a == e && b == e;
      }
    case Star(c) => KeptStar(c, e);
    case Plus(c) =>
      KeptEmpty(c);
      KeptStar(c, e);
      if StartFinal(r) {
        KeptMore(c, e, e);
        assert e + e == e;
      }
      if Kept(r, e) {
        var a, b := KeptPlusSplit(c, e);
        assert a == e;
      }
  }

  /** The automaton built for r accepts exactly what is kept. */
  ghost predicate Follows(g: Nfa, r: Regex) {
    Good(g) && forall w {:trigger Language(g, w)} {:trigger Kept(r, w)} :: Language(g, w) <==> Kept(r, w)
  }

  lemma FollowsGood(g: Nfa, r: Regex)
    requires Follows(g, r)
    ensures Good(g) && g.Valid() && g.finals != {} && g.first == 0 && (0 in g.finals <==> StartFinal(r))
  {
    hide Language, Kept;
    EmptyInLanguage(g);
    KeptEmpty(r);
    GoodFacts(g);
    var e: seq<Pair> := [];
    assert Language(g, e) <==> Kept(r, e);
  }

  lemma WordFollows(a: Word, b: Word, g: Nfa)
    requires g == Nfa(2, 0, {1}, {Edge(0, (a, b), 1)})
    ensures Follows(g, Tuple(a, b))
  {
    hide Language, Kept;
    forall w ensures Language(g, w) <==> Kept(Tuple(a, b), w) {
      WordLanguage(a, b, g, w);
      KeptOne(a, b, w);
    }
    WordLanguage(a, b, g, []);
  }

  lemma UnionFollows(f1: Nfa, f2: Nfa, g: Nfa, x: Regex, y: Regex)
    requires Follows(f1, x) && Follows(f2, y) && f1.n >= 1 && IsUnion(f1, f2, g)
    ensures Follows(g, Union(x, y))
  {
    hide Language, Kept, IsUnion;
    UnionLanguage(f1, f2, g, []);
    forall w ensures Language(g, w) <==> Kept(Union(x, y), w) {
      UnionLanguage(f1, f2, g, w);
      KeptUnion(x, y, w);
    }
  }

  lemma ConcatFollows(f1: Nfa, f2: Nfa, g: Nfa, x: Regex, y: Regex)
    requires Follows(f1, x) && Follows(f2, y) && f1.n >= 1 && IsConcat(f1, f2, g)
    ensures Follows(g, Concat(x, y))
  {
    hide Language, Kept, IsConcat;
    FollowsGood(f1, x);
    FollowsGood(f2, y);
    ConcatGood(f1, f2, g);
    forall w ensures Language(g, w) <==> Kept(Concat(x, y), w) {
      if Language(g, w) {
        var a, b := ConcatCut(f1, f2, g, w);
        KeptConcat(x, y, a, b);
      }
      if Kept(Concat(x, y), w) {
        var a, b := KeptConcatSplit(x, y, w);
        ConcatJoin(f1, f2, g, a, b);
      }
    }
  }

  lemma {:induction false} LoopsRepeat(f: Nfa, c: Regex, w: seq<Pair>)
    requires Follows(f, c)
    ensures Loops(f, w) <==> KeptRepeats(c, w)
    decreases |w|
  {
    hide Language, Kept, KeptRepeats, Loops;
    LoopsNothing(f);
    KeptStar(c, w);
    if w != [] {
      if Loops(f, w) {
        var a, b := LoopsSplit(f, w);
        LoopsRepeat(f, c, b);
        KeptMore(c, a, b);
      }
      if KeptRepeats(c, w) {
        var a, b := KeptRepeatsSplit(c, w);
        LoopsRepeat(f, c, b);
        LoopsMore(f, a, b);
      }
    }
  }

  /** A nonempty word of a star is a word of the plus. */
  lemma RepeatsIff(c: Regex, includeEpsilon: bool, w: seq<Pair>)
    requires w != []
    ensures Kept(StarOf(c, includeEpsilon), w) <==> KeptRepeats(c, w)
  {
    hide Kept, KeptRepeats;
    KeptStar(c, w);
    if KeptRepeats(c, w) {
      var a, b := KeptRepeatsSplit(c, w);
      KeptMore(c, a, b);
    }
    if Kept(Plus(c), w) {
      var a, b := KeptPlusSplit(c, w);
      KeptMore(c, a, b);
    }
  }

  lemma StarFollows(f: Nfa, includeEpsilon: bool, g: Nfa, c: Regex)
    requires Follows(f, c) && IsStar(f, includeEpsilon, g)
    ensures Follows(g, StarOf(c, includeEpsilon))
  {
    hide Language, Kept, KeptRepeats, Follows, IsStar, Loops, StarOf;
    FollowsGood(f, c);
    StarGood(f, includeEpsilon, g);
    GoodFacts(g);
    EmptyInLanguage(g);
    var r := StarOf(c, includeEpsilon);
    StarOfFacts(c, includeEpsilon);
    KeptEmpty(r);
    forall w ensures Language(g, w) <==> Kept(r, w) {
      if w != [] {
        StarLanguage(f, includeEpsilon, g, w);
        LoopsRepeat(f, c, w);
        RepeatsIff(c, includeEpsilon, w);
      }
    }
    FollowsFrom(g, r);
  }

  lemma FollowsFrom(g: Nfa, r: Regex)
    requires Good(g) && forall w {:trigger Language(g, w)} :: Language(g, w) <==> Kept(r, w)
    ensures Follows(g, r)
  {
    hide Language, Kept;
    forall w ensures Language(g, w) <==> Kept(r, w) {
    }
  }

  lemma StarOfFacts(c: Regex, includeEpsilon: bool)
    ensures StartFinal(StarOf(c, includeEpsilon)) == (includeEpsilon || StartFinal(c))
  {
  }

  lemma {:induction false} StartFinalNullable(r: Regex)
    ensures StartFinal(r) ==> Nullable(r)
    decreases r
  {
    match r
    case Tuple(_, _) =>
    case Union(x, y) => StartFinalNullable(x);
    case Concat(x, y) => StartFinalNullable(x); StartFinalNullable(y);
    case Star(c) =>
    case Plus(c) => StartFinalNullable(c);
  }

  /** The automaton built for an expression accepts exactly the sequences of tuples that are kept. */
  method MakeFsa(r: Regex) returns (g: Nfa)
    ensures Follows(g, r)
    decreases r
  {
    hide Follows, IsUnion, IsConcat, IsStar;
    match r {
      case Tuple(a, b) =>
        g := WordFsa(a, b);
        WordFollows(a, b, g);
      case Union(x, y) =>
        var f1 := MakeFsa(x);
        var f2 := MakeFsa(y);
        FollowsGood(f1, x);
        FollowsGood(f2, y);
        g := UnionFsa(f1, f2);
        UnionFollows(f1, f2, g, x, y);
      case Concat(x, y) =>
        var f1 := MakeFsa(x);
        var f2 := MakeFsa(y);
        FollowsGood(f1, x);
        FollowsGood(f2, y);
        g := ConcatFsa(f1, f2);
        ConcatFollows(f1, f2, g, x, y);
      case Star(c) =>
        var f := MakeFsa(c);
        FollowsGood(f, c);
        g := KleeneStarFsa(f, true);
        StarFollows(f, true, g, c);
      case Plus(c) =>
        var f := MakeFsa(c);
        FollowsGood(f, c);
        g := KleeneStarFsa(f, false);
        StarFollows(f, false, g, c);
    }
  }

  /** Nothing is lost when the top and the operands of concatenations keep their empty words. */
  lemma KeepsAll(g: Nfa, r: Regex, x: Pair)
    requires Follows(g, r) && KeepsWords(r) && !Loses(r)
    ensures Relates(g, x) <==> Denotes(r, x)
  {
    hide Language, Spells, Kept, Flat;
    if Relates(g, x) {
      var w :| Language(g, w) && Flat(w) == x;
      KeptIsSpelled(r, w);
    }
    if Denotes(r, x) {
      var w :| Spells(r, w) && Flat(w) == x;
      SpelledIsKept(r, w);
    }
  }

  /** The relation is right for every expression whose unions have a nullable operand on the left, if they have one. */
  lemma NullableLeftIsRight(g: Nfa, r: Regex, x: Pair)
    requires Follows(g, r) && NullableLeft(r)
    ensures Relates(g, x) <==> Denotes(r, x)
  {
    NullableLeftKeeps(r);
    KeepsAll(g, r, x);
  }

  /** The empty sequence of tuples is accepted exactly when it is not lost. */
  lemma EmptyLostIff(g: Nfa, r: Regex)
    requires Follows(g, r)
    ensures (Language(g, []) <==> Spells(r, [])) <==> !Loses(r)
  {
    hide Language, Spells;
    NullableSpells(r);
    StartFinalNullable(r);
    FollowsGood(g, r);
    EmptyInLanguage(g);
  }

  function Parts(r: Regex): set<Regex> {
    {r} + match r
          case Tuple(_, _) => {}
          case Union(x, y) => Parts(x) + Parts(y)
          case Concat(x, y) => Parts(x) + Parts(y)
          case Star(c) => Parts(c)
          case Plus(c) => Parts(c)
  }

  /** The construction keeps everything that r spells. */
  ghost predicate KeptWhole(r: Regex) {
    forall w {:trigger Kept(r, w)} {:trigger Spells(r, w)} :: Kept(r, w) <==> Spells(r, w)
  }

  ghost predicate AllPartsWhole(r: Regex) {
    forall s {:trigger s in Parts(r)} :: s in Parts(r) ==> KeptWhole(s)
  }

  lemma PartsOfTwo(r: Regex, x: Regex, y: Regex)
    requires r == Union(x, y) || r == Concat(x, y)
    ensures AllPartsWhole(r) <==> KeptWhole(r) && AllPartsWhole(x) && AllPartsWhole(y)
  {
    hide KeptWhole;
    assert Parts(r) == {r} + (Parts(x) + Parts(y));
    assert r in Parts(r);
    assert forall s :: s in Parts(x) || s in Parts(y) ==> s in Parts(r);
  }

  lemma PartsOfOne(r: Regex, c: Regex)
    requires r == Star(c) || r == Plus(c)
    ensures AllPartsWhole(r) <==> KeptWhole(r) && AllPartsWhole(c)
  {
    hide KeptWhole;
    assert Parts(r) == {r} + Parts(c);
    assert r in Parts(r);
    assert forall s :: s in Parts(c) ==> s in Parts(r);
  }

  /** The condition on unions is exactly what it takes for r and all its parts to be kept whole. */
  lemma {:induction false} PartsKeptWholeIff(r: Regex)
    ensures NullableLeft(r) <==> AllPartsWhole(r)
    decreases r
  {
    hide KeptWhole, AllPartsWhole, Parts;
    if NullableLeft(r) {
      WholeIfNullableLeft(r);
    } else {
      LostIfNot(r);
    }
    match r
    case Tuple(_, _) => assert AllPartsWhole(r) by { OnlyItself(r); }
    case Union(x, y) => PartsKeptWholeIff(x); PartsKeptWholeIff(y); PartsOfTwo(r, x, y);
    case Concat(x, y) => PartsKeptWholeIff(x); PartsKeptWholeIff(y); PartsOfTwo(r, x, y);
    case Star(c) => PartsKeptWholeIff(c); PartsOfOne(r, c);
    case Plus(c) => PartsKeptWholeIff(c); PartsOfOne(r, c);
  }

  lemma OnlyItself(r: Regex)
    requires r.Tuple? && KeptWhole(r)
    ensures AllPartsWhole(r)
  {
    hide KeptWhole;
  }

  lemma WholeIfNullableLeft(r: Regex)
    requires NullableLeft(r)
    ensures KeptWhole(r)
  {
    hide Kept, Spells;
    NullableLeftKeeps(r);
    forall w ensures Kept(r, w) <==> Spells(r, w) {
      if Kept(r, w) {
        KeptIsSpelled(r, w);
      }
      if Spells(r, w) {
        SpelledIsKept(r, w);
      }
    }
  }

  /** Where only the top violates the condition, the empty word is lost there. */
  lemma LostIfNot(r: Regex)
    requires !NullableLeft(r)
    ensures (r.Union? && NullableLeft(r.l) && NullableLeft(r.r)) ==> !KeptWhole(r)
  {
    hide Kept, Spells;
    if r.Union? && NullableLeft(r.l) && NullableLeft(r.r) {
      var e: seq<Pair> := [];
      NullableSpells(r);
      KeptEmpty(r);
      StartFinalNullable(r.l);
      assert Spells(r, e) && !Kept(r, e);
    }
  }

  /** The tuple (0, 0), or any number of tuples (1, 1). */
  const RIGHT_STAR := Union(Tuple([0], [0]), Star(Tuple([1], [1])))

  lemma RightStarWord(w: seq<Pair>)
    requires Spells(RIGHT_STAR, w) && w != []
    ensures Flat(w).0 != []
  {
    hide Spells, Repeats;
    var t0, t1 := Tuple([0], [0]), Tuple([1], [1]);
    SpellsUnion(t0, Star(t1), w);
    SpellsOne(t0);
    SpellsOne(t1);
    SpellsStar(t1, w);
    var first: Pair := w[0];
    if !Spells(t0, w) {
      var a, b := SplitRepeats(t1, w);
      assert a == [([1], [1])] && w[0] == a[0];
    }
    assert first.0 != [];
  }

  /** The pair of empty words is denoted, and the automaton does not relate it. */
  lemma RightStarLosesEmpty(g: Nfa)
    requires Follows(g, RIGHT_STAR)
    ensures Denotes(RIGHT_STAR, ([], [])) && !Relates(g, ([], []))
  {
    hide Language, Spells, Kept;
    var r := RIGHT_STAR;
    var e: seq<Pair> := [];
    NullableSpells(r);
    assert Flat(e) == ([], []);
    FollowsGood(g, r);
    EmptyInLanguage(g);
    forall w | Language(g, w) ensures Flat(w).0 != [] {
      KeptIsSpelled(r, w);
      RightStarWord(w);
    }
  }
}
