/** Thompson's construction. */
module Thompson {
  import opened Words
  import opened Nfa
  import opened Regexes

  // ---------- label sequences without the empty labels that the construction adds ----------

  function Clean(w: seq<Pair>): seq<Pair> {
    if w == [] then [] else (if w[0] == IDENTITY then [] else [w[0]]) + Clean(w[1..])
  }

  lemma {:induction false} CleanJoin(a: seq<Pair>, b: seq<Pair>)
    ensures Clean(a + b) == Clean(a) + Clean(b)
    decreases a
  {
    if a == [] {
      assert a + b == b;
    } else {
      assert (a + b)[1..] == a[1..] + b;
      CleanJoin(a[1..], b);
    }
  }

  lemma CleanIdentity(w: seq<Pair>)
    ensures Clean([IDENTITY] + w) == Clean(w) && Clean(w + [IDENTITY]) == Clean(w)
  {
    assert ([IDENTITY] + w)[1..] == w;
    CleanJoin(w, [IDENTITY]);
    assert [IDENTITY][1..] == [];
  }

  lemma CleanFirst(w: seq<Pair>)
    requires w != [] && w[0] == IDENTITY
    ensures Clean(w) == Clean(w[1..])
  {
  }

  lemma {:induction false} FlatClean(w: seq<Pair>)
    ensures Flat(Clean(w)) == Flat(w)
    decreases w
  {
    if w != [] {
      FlatClean(w[1..]);
      if w[0] == IDENTITY {
        var rest := Flat(w[1..]);
        assert w[0].0 + rest.0 == rest.0 && w[0].1 + rest.1 == rest.1;
        assert Clean(w) == Clean(w[1..]);
      } else {
        assert Clean(w)[1..] == Clean(w[1..]);
      }
    }
  }

  /** The automaton spells what the expression spells, up to empty labels. */
  ghost predicate Matches(g: Nfa, r: Regex) {
    && g.Valid() && g.finals != {}
    && (forall w {:trigger Language(g, w)} :: Language(g, w) ==> SpellsLike(r, w))
    && (forall w {:trigger Spells(r, w)} :: Spells(r, w) ==> AcceptsLike(g, w))
  }

  ghost predicate SpellsLike(r: Regex, w: seq<Pair>) {
    exists x {:trigger Spells(r, x)} :: Spells(r, x) && Clean(x) == Clean(w)
  }

  ghost predicate AcceptsLike(g: Nfa, w: seq<Pair>) {
    exists x {:trigger Language(g, x)} :: Language(g, x) && Clean(x) == Clean(w)
  }

  /** Matching automata have the relation that the expression denotes. */
  lemma MatchesDenotes(g: Nfa, r: Regex, x: Pair)
    requires Matches(g, r)
    ensures Relates(g, x) <==> Denotes(r, x)
  {
    hide Spells, Language, Clean, Flat;
    if Relates(g, x) {
      var w :| Language(g, w) && Flat(w) == x;
      assert SpellsLike(r, w);
      var y :| Spells(r, y) && Clean(y) == Clean(w);
      FlatClean(w);
      FlatClean(y);
    }
    if Denotes(r, x) {
      var w :| Spells(r, w) && Flat(w) == x;
      assert AcceptsLike(g, w);
      var y :| Language(g, y) && Clean(y) == Clean(w);
      FlatClean(w);
      FlatClean(y);
    }
  }

  // ---------- one tuple ----------

  lemma WordMatches(a: Word, b: Word, g: Nfa)
    requires g == Nfa(2, 0, {1}, {Edge(0, (a, b), 1)})
    ensures Matches(g, Tuple(a, b))
  {
    var e := Edge(0, (a, b), 1);
    var t := [(a, b)];
    SpellsOne(Tuple(a, b));
    hide Run, Spells, Clean;
    forall w | Language(g, w) ensures SpellsLike(Tuple(a, b), w) {
      var f := OutOfLanguage(g, w);
      RunEmpty(g, 0, f);
      if w == [] {
        assert false;
      } else {
        var c := FirstEdge(g, 0, w, f);
        if w[1..] == [] {
          assert w == t;
          assert Spells(Tuple(a, b), w);
        } else {
          var d := FirstEdge(g, 1, w[1..], f);
          assert false;
        }
      }
    }
    forall w | Spells(Tuple(a, b), w) ensures AcceptsLike(g, w) {
      RunEmpty(g, 1, 1);
      RunStep(g, e, [], 1);
      assert [e.lab] + [] == t == w;
      IntoLanguage(g, t, 1);
      assert Language(g, w);
    }
  }

  // ---------- copies of edges ----------

  function Shifted(arcs: set<Edge>, k: nat): set<Edge> {
    set e | e in arcs :: ShiftEdge(e, k)
  }

  /** Edges with the empty label from the states in from, shifted by k, to one state. */
  function Exits(from: set<nat>, k: nat, to: nat): set<Edge> {
    set q | q in from :: Edge(q + k, IDENTITY, to)
  }

  method CopyEdges(arcs: set<Edge>, more: set<Edge>, k: nat) returns (all: set<Edge>)
    ensures all == arcs + Shifted(more, k)
  {
    all := arcs;
    var todo := more;
    while todo != {}
      invariant todo <= more && all == arcs + Shifted(more - todo, k)
    {
      var e :| e in todo;
      assert more - (todo - {e}) == (more - todo) + {e};
      assert Shifted((more - todo) + {e}, k) == Shifted(more - todo, k) + {ShiftEdge(e, k)};
      todo, all := todo - {e}, all + {ShiftEdge(e, k)};
    }
    assert more - todo == more;
  }

  method AddExits(arcs: set<Edge>, from: set<nat>, k: nat, to: nat) returns (all: set<Edge>)
    ensures all == arcs + Exits(from, k, to)
  {
    all := arcs;
    var todo := from;
    while todo != {}
      invariant todo <= from && all == arcs + Exits(from - todo, k, to)
    {
      var q :| q in todo;
      assert from - (todo - {q}) == (from - todo) + {q};
      assert Exits((from - todo) + {q}, k, to) == Exits(from - todo, k, to) + {Edge(q + k, IDENTITY, to)};
      todo, all := todo - {q}, all + {Edge(q + k, IDENTITY, to)};
    }
    assert from - todo == from;
  }

  // ---------- union ----------

  /** A new initial and a new final state around the two automata. */
  ghost predicate IsUnion(f1: Nfa, f2: Nfa, g: Nfa) {
    && g.n == f1.n + f2.n + 2 && g.first == g.n - 2 && g.finals == {g.n - 1}
    && g.arcs == f1.arcs + Shifted(f2.arcs, f1.n) + Exits(f1.finals, 0, g.n - 1) + Exits(f2.finals, f1.n, g.n - 1)
      + {Edge(g.n - 2, IDENTITY, f1.first), Edge(g.n - 2, IDENTITY, f2.first + f1.n)}
  }

  method UnionFsa(f1: Nfa, f2: Nfa) returns (g: Nfa)
    ensures f1.finals == {} && f2.finals == {} ==> g == EMPTY_FSA
    ensures f1.finals == {} && f2.finals != {} ==> g == f2
    ensures f1.finals != {} && f2.finals == {} ==> g == f1
    ensures f1.finals != {} && f2.finals != {} ==> IsUnion(f1, f2, g)
  {
    hide Shifted, Exits;
    if f1.finals == {} && f2.finals == {} {
      return EMPTY_FSA;
    } else if f1.finals == {} {
      return f2;
    } else if f2.finals == {} {
      return f1;
    }
    var n := f1.n + f2.n + 2;
    var arcs := CopyEdges(f1.arcs, f2.arcs, f1.n);
    arcs := AddExits(arcs, f1.finals, 0, n - 1);
    arcs := AddExits(arcs, f2.finals, f1.n, n - 1);
    arcs := arcs + {Edge(n - 2, IDENTITY, f1.first)};
    arcs := arcs + {Edge(n - 2, IDENTITY, f2.first + f1.n)};
    g := Nfa(n, n - 2, {n - 1}, arcs);
  }

  predicate IsSink(g: Nfa, q: nat) {
    forall e :: e in g.arcs ==> e.from != q
  }

  lemma MatchesSound(g: Nfa, r: Regex, w: seq<Pair>) returns (x: seq<Pair>)
    requires Matches(g, r) && Language(g, w)
    ensures Spells(r, x) && Clean(x) == Clean(w)
  {
    hide Language, Spells, Clean;
    assert SpellsLike(r, w);
    x :| Spells(r, x) && Clean(x) == Clean(w);
  }

  lemma MatchesComplete(g: Nfa, r: Regex, w: seq<Pair>) returns (x: seq<Pair>, fin: nat)
    requires Matches(g, r) && Spells(r, w)
    ensures Run(g, g.first, x, fin) && fin in g.finals && Clean(x) == Clean(w)
  {
    hide Language, Spells, Clean, Run;
    assert AcceptsLike(g, w);
    x :| Language(g, x) && Clean(x) == Clean(w);
    fin := OutOfLanguage(g, x);
  }

  lemma MatchesValid(g: Nfa, r: Regex)
    requires Matches(g, r)
    ensures g.Valid() && g.finals != {} && g.first < g.n
  {
  }

  lemma InShifted(arcs: set<Edge>, k: nat, e: Edge)
    ensures e in Shifted(arcs, k) <==> e.from >= k && e.to >= k && Edge(e.from - k, e.lab, e.to - k) in arcs
  {
    if e.from >= k && e.to >= k && Edge(e.from - k, e.lab, e.to - k) in arcs {
      var c := Edge(e.from - k, e.lab, e.to - k);
      assert ShiftEdge(c, k) == e;
    }
  }

  lemma InExits(from: set<nat>, k: nat, to: nat, e: Edge)
    ensures e in Exits(from, k, to) <==> e.from >= k && e.from - k in from && e.lab == IDENTITY && e.to == to
  {
    if e.from >= k && e.from - k in from && e.lab == IDENTITY && e.to == to {
      var q: nat := e.from - k;
      assert Edge(q + k, IDENTITY, to) == e;
    }
  }

  /** A copy of f with the exits listed, as far as the edges say. */
  lemma RegionFrom(g: Nfa, f: Nfa, k: nat, exits: set<nat>)
    requires f.Valid()
    requires forall e {:trigger e in g.arcs} :: e in Shifted(f.arcs, k) ==> e in g.arcs
    requires forall e {:trigger e in g.arcs} :: e in g.arcs && InRegion(f, k, e.from) ==> Inside(f, k, e) || Leaving(f, k, exits, e)
    ensures Region(g, f, k, exits)
  {
    forall e | e in f.arcs ensures ShiftEdge(e, k) in g.arcs {
      InShifted(f.arcs, k, ShiftEdge(e, k));
    }
  }

  /** Where an edge of the union comes from. */
  lemma UnionEdge(f1: Nfa, f2: Nfa, g: Nfa, e: Edge)
    requires f1.Valid() && f2.Valid() && f1.finals != {} && f2.finals != {} && IsUnion(f1, f2, g) && e in g.arcs
    ensures g.n >= 2 && e.from < g.n - 1 && e.to < g.n
    ensures InRegion(f1, 0, e.from) ==> Inside(f1, 0, e) || Leaving(f1, 0, {g.n - 1}, e)
    ensures InRegion(f2, f1.n, e.from) ==> Inside(f2, f1.n, e) || Leaving(f2, f1.n, {g.n - 1}, e)
    ensures e.from == g.first ==> e == Edge(g.first, IDENTITY, f1.first) || e == Edge(g.first, IDENTITY, f2.first + f1.n)
  {
    hide Shifted, Exits;
    InShifted(f2.arcs, f1.n, e);
    InExits(f1.finals, 0, g.n - 1, e);
    InExits(f2.finals, f1.n, g.n - 1, e);
  }

  lemma UnionRegions(f1: Nfa, f2: Nfa, g: Nfa)
    requires f1.Valid() && f2.Valid() && f1.finals != {} && f2.finals != {} && IsUnion(f1, f2, g)
    ensures g.n >= 2 && g.Valid() && IsSink(g, g.n - 1)
    ensures Region(g, f1, 0, {g.n - 1}) && Region(g, f2, f1.n, {g.n - 1})
  {
    hide Shifted, Exits, Inside, Leaving, InRegion;
    forall e | e in g.arcs
      ensures e.from < g.n - 1 && e.to < g.n
      ensures InRegion(f1, 0, e.from) ==> Inside(f1, 0, e) || Leaving(f1, 0, {g.n - 1}, e)
      ensures InRegion(f2, f1.n, e.from) ==> Inside(f2, f1.n, e) || Leaving(f2, f1.n, {g.n - 1}, e)
    {
      UnionEdge(f1, f2, g, e);
    }
    forall e | e in Shifted(f1.arcs, 0) ensures e in f1.arcs {
      InShifted(f1.arcs, 0, e);
    }
    RegionFrom(g, f1, 0, {g.n - 1});
    RegionFrom(g, f2, f1.n, {g.n - 1});
  }

  /** A word of the copy of f, between two empty labels. */
  lemma Bypass(g: Nfa, f: Nfa, k: nat, out: nat, w: seq<Pair>, fin: nat) returns (x: seq<Pair>)
    requires Region(g, f, k, {out}) && Run(f, f.first, w, fin) && fin in f.finals
    requires Edge(g.first, IDENTITY, f.first + k) in g.arcs && Edge(fin + k, IDENTITY, out) in g.arcs && out in g.finals
    ensures Language(g, x) && Clean(x) == Clean(w)
  {
    hide Run, Region, Clean, Language;
    RunInRegion(g, f, k, {out}, f.first, w, fin);
    RunEmpty(g, out, out);
    RunStep(g, Edge(fin + k, IDENTITY, out), [], out);
    assert [IDENTITY] + [] == [IDENTITY];
    RunJoin(g, f.first + k, w, fin + k, [IDENTITY], out);
    RunStep(g, Edge(g.first, IDENTITY, f.first + k), w + [IDENTITY], out);
    assert [IDENTITY] + (w + [IDENTITY]) == [IDENTITY] + w + [IDENTITY];
    IntoLanguage(g, [IDENTITY] + w + [IDENTITY], out);
    CleanIdentity(w);
    CleanIdentity(w + [IDENTITY]);
    x := [IDENTITY] + w + [IDENTITY];
  }

  /** A path from the copy of the first state of f to the last state: a word of f and the edge out. */
  lemma Through(g: Nfa, f: Nfa, k: nat, w: seq<Pair>, last: nat) returns (w1: seq<Pair>)
    requires Region(g, f, k, {last}) && f.first < f.n && !InRegion(f, k, last)
    requires Run(g, f.first + k, w, last) && IsSink(g, last)
    ensures Language(f, w1) && Clean(w1) == Clean(w)
  {
    hide Run, Region, Clean, Language;
    var x, fin, out, rest := Leave(g, f, k, {last}, f.first + k, w, last);
    if rest == [] {
      w1 := x;
      IntoLanguage(f, w1, fin);
      assert w == w1 + [IDENTITY];
      CleanIdentity(w1);
    } else {
      var e := FirstEdge(g, last, rest, last);
      assert false;
    }
  }

  lemma UnionFacts(f1: Nfa, f2: Nfa, g: Nfa)
    requires f1.Valid() && f2.Valid() && f1.finals != {} && f2.finals != {} && IsUnion(f1, f2, g)
    ensures g.n == f1.n + f2.n + 2 && g.first == g.n - 2 && g.finals == {g.n - 1}
    ensures Edge(g.first, IDENTITY, f1.first) in g.arcs && Edge(g.first, IDENTITY, f2.first + f1.n) in g.arcs
    ensures forall q: nat {:trigger q in f1.finals} :: q in f1.finals ==> Edge(q, IDENTITY, g.n - 1) in g.arcs
    ensures forall q: nat {:trigger q in f2.finals} :: q in f2.finals ==> Edge(q + f1.n, IDENTITY, g.n - 1) in g.arcs
  {
    hide Shifted, Exits;
    forall q: nat | q in f1.finals ensures Edge(q, IDENTITY, g.n - 1) in g.arcs {
      InExits(f1.finals, 0, g.n - 1, Edge(q, IDENTITY, g.n - 1));
    }
    forall q: nat | q in f2.finals ensures Edge(q + f1.n, IDENTITY, g.n - 1) in g.arcs {
      InExits(f2.finals, f1.n, g.n - 1, Edge(q + f1.n, IDENTITY, g.n - 1));
    }
  }

  lemma UnionSound(f1: Nfa, f2: Nfa, g: Nfa, r1: Regex, r2: Regex, w: seq<Pair>)
    requires Matches(f1, r1) && Matches(f2, r2) && IsUnion(f1, f2, g) && Language(g, w)
    ensures SpellsLike(Union(r1, r2), w)
  {
    hide Run, Region, Clean, Language, Spells, Matches, IsUnion, IsSink;
    MatchesValid(f1, r1);
    MatchesValid(f2, r2);
    UnionRegions(f1, f2, g);
    UnionFacts(f1, f2, g);
    var f := OutOfLanguage(g, w);
    if w == [] {
      RunEmpty(g, g.first, f);
      assert false;
    } else {
      var e := FirstEdge(g, g.first, w, f);
      UnionEdge(f1, f2, g, e);
      CleanFirst(w);
      if e.to == f1.first {
        var x := Through(g, f1, 0, w[1..], f);
        var y := MatchesSound(f1, r1, x);
        SpellsUnion(r1, r2, y);
      } else {
        var x := Through(g, f2, f1.n, w[1..], f);
        var y := MatchesSound(f2, r2, x);
        SpellsUnion(r1, r2, y);
      }
    }
  }

  lemma UnionComplete(f1: Nfa, f2: Nfa, g: Nfa, r1: Regex, r2: Regex, w: seq<Pair>)
    requires Matches(f1, r1) && Matches(f2, r2) && IsUnion(f1, f2, g) && Spells(Union(r1, r2), w)
    ensures AcceptsLike(g, w)
  {
    hide Run, Region, Clean, Language, Spells, Matches, IsUnion, IsSink;
    MatchesValid(f1, r1);
    MatchesValid(f2, r2);
    UnionRegions(f1, f2, g);
    UnionFacts(f1, f2, g);
    SpellsUnion(r1, r2, w);
    if Spells(r1, w) {
      var x, fin := MatchesComplete(f1, r1, w);
      var y := Bypass(g, f1, 0, g.n - 1, x, fin);
    } else {
      var x, fin := MatchesComplete(f2, r2, w);
      var y := Bypass(g, f2, f1.n, g.n - 1, x, fin);
    }
  }

  lemma UnionMatches(f1: Nfa, f2: Nfa, g: Nfa, r1: Regex, r2: Regex)
    requires Matches(f1, r1) && Matches(f2, r2) && IsUnion(f1, f2, g)
    ensures Matches(g, Union(r1, r2))
  {
    hide Language, Spells, SpellsLike, AcceptsLike;
    UnionRegions(f1, f2, g);
    forall w | Language(g, w) ensures SpellsLike(Union(r1, r2), w) {
      UnionSound(f1, f2, g, r1, r2, w);
    }
    forall w | Spells(Union(r1, r2), w) ensures AcceptsLike(g, w) {
      UnionComplete(f1, f2, g, r1, r2, w);
    }
  }

  // ---------- concatenation ----------

  ghost predicate IsConcat(f1: Nfa, f2: Nfa, g: Nfa) {
    && g.n == f1.n + f2.n && g.first == f1.first && g.finals == (set q | q in f2.finals :: q + f1.n)
    && g.arcs == f1.arcs + Shifted(f2.arcs, f1.n) + Exits(f1.finals, 0, f2.first + f1.n)
  }

  method ConcatFsa(f1: Nfa, f2: Nfa) returns (g: Nfa)
    ensures f1.finals == {} || f2.finals == {} ==> g == EMPTY_FSA
    ensures f1.finals != {} && f2.finals != {} ==> IsConcat(f1, f2, g)
  {
    hide Shifted, Exits;
    if f1.finals == {} || f2.finals == {} {
      return EMPTY_FSA;
    }
    var finals: set<nat> := {};
    var todo := f2.finals;
    while todo != {}
      invariant todo <= f2.finals && finals == set q | q in f2.finals - todo :: q + f1.n
    {
      var q :| q in todo;
      assert f2.finals - (todo - {q}) == (f2.finals - todo) + {q};
      todo, finals := todo - {q}, finals + {q + f1.n};
    }
    assert f2.finals - todo == f2.finals;
    var arcs := CopyEdges(f1.arcs, f2.arcs, f1.n);
    arcs := AddExits(arcs, f1.finals, 0, f2.first + f1.n);
    g := Nfa(f1.n + f2.n, f1.first, finals, arcs);
  }

  lemma ConcatEdge(f1: Nfa, f2: Nfa, g: Nfa, e: Edge)
    requires f1.Valid() && f2.Valid() && f1.finals != {} && f2.finals != {} && IsConcat(f1, f2, g) && e in g.arcs
    ensures e.from < g.n && e.to < g.n
    ensures InRegion(f1, 0, e.from) ==> Inside(f1, 0, e) || Leaving(f1, 0, {f2.first + f1.n}, e)
    ensures InRegion(f2, f1.n, e.from) ==> Inside(f2, f1.n, e)
  {
    hide Shifted, Exits;
    InShifted(f2.arcs, f1.n, e);
    InExits(f1.finals, 0, f2.first + f1.n, e);
  }

  lemma ConcatRegions(f1: Nfa, f2: Nfa, g: Nfa)
    requires f1.Valid() && f2.Valid() && f1.finals != {} && f2.finals != {} && IsConcat(f1, f2, g)
    ensures g.Valid() && g.finals != {} && g.first == f1.first
    ensures Region(g, f1, 0, {f2.first + f1.n}) && Region(g, f2, f1.n, {})
    ensures forall q: nat {:trigger q in g.finals} :: q in g.finals <==> q >= f1.n && q - f1.n in f2.finals
    ensures forall q: nat {:trigger q in f1.finals} :: q in f1.finals ==> Edge(q, IDENTITY, f2.first + f1.n) in g.arcs
  {
    hide Shifted, Exits, Inside, Leaving, InRegion;
    forall e | e in g.arcs
      ensures e.from < g.n && e.to < g.n
      ensures InRegion(f1, 0, e.from) ==> Inside(f1, 0, e) || Leaving(f1, 0, {f2.first + f1.n}, e)
      ensures InRegion(f2, f1.n, e.from) ==> Inside(f2, f1.n, e)
    {
      ConcatEdge(f1, f2, g, e);
    }
    forall e | e in Shifted(f1.arcs, 0) ensures e in f1.arcs {
      InShifted(f1.arcs, 0, e);
    }
    RegionFrom(g, f1, 0, {f2.first + f1.n});
    RegionFrom(g, f2, f1.n, {});
    forall q: nat ensures q in g.finals <==> q >= f1.n && q - f1.n in f2.finals {
      if q >= f1.n && q - f1.n in f2.finals {
        var p: nat := q - f1.n;
        assert p in f2.finals && p + f1.n == q;
      }
    }
    forall q: nat | q in f1.finals ensures Edge(q, IDENTITY, f2.first + f1.n) in g.arcs {
      InExits(f1.finals, 0, f2.first + f1.n, Edge(q, IDENTITY, f2.first + f1.n));
    }
    var f :| f in f2.finals;
    assert f + f1.n in g.finals;
  }

  lemma CleanMiddle(a: seq<Pair>, b: seq<Pair>)
    ensures Clean(a + [IDENTITY] + b) == Clean(a) + Clean(b)
  {
    CleanJoin(a + [IDENTITY], b);
    CleanIdentity(a);
  }

  lemma ConcatSound(f1: Nfa, f2: Nfa, g: Nfa, r1: Regex, r2: Regex, w: seq<Pair>)
    requires Matches(f1, r1) && Matches(f2, r2) && IsConcat(f1, f2, g) && Language(g, w)
    ensures SpellsLike(Concat(r1, r2), w)
  {
    hide Run, Region, Clean, Language, Spells, Matches, IsConcat;
    MatchesValid(f1, r1);
    MatchesValid(f2, r2);
    ConcatRegions(f1, f2, g);
    var f := OutOfLanguage(g, w);
    var w1, fin, out, w2 := Leave(g, f1, 0, {f2.first + f1.n}, f1.first, w, f);
    Stay(g, f2, f1.n, out, w2, f);
    IntoLanguage(f1, w1, fin);
    IntoLanguage(f2, w2, f - f1.n);
    var x1 := MatchesSound(f1, r1, w1);
    var x2 := MatchesSound(f2, r2, w2);
    SpellsConcat(r1, r2, x1, x2);
    CleanJoin(x1, x2);
    CleanMiddle(w1, w2);
  }

  /** Two paths joined by the edge with the empty label between them. */
  lemma Bridge(g: Nfa, p: nat, a: seq<Pair>, m: nat, n: nat, b: seq<Pair>, q: nat) returns (x: seq<Pair>)
    requires Run(g, p, a, m) && Edge(m, IDENTITY, n) in g.arcs && Run(g, n, b, q)
    ensures Run(g, p, x, q) && Clean(x) == Clean(a) + Clean(b)
  {
    hide Run, Clean;
    RunStep(g, Edge(m, IDENTITY, n), b, q);
    RunJoin(g, p, a, m, [IDENTITY] + b, q);
    x := a + ([IDENTITY] + b);
    assert x == a + [IDENTITY] + b;
    CleanMiddle(a, b);
  }

  lemma ConcatComplete(f1: Nfa, f2: Nfa, g: Nfa, r1: Regex, r2: Regex, w: seq<Pair>)
    requires Matches(f1, r1) && Matches(f2, r2) && IsConcat(f1, f2, g) && Spells(Concat(r1, r2), w)
    ensures AcceptsLike(g, w)
  {
    hide Run, Region, Clean, Language, Spells, Matches, IsConcat;
    MatchesValid(f1, r1);
    MatchesValid(f2, r2);
    ConcatRegions(f1, f2, g);
    var a, b := SplitConcat(r1, r2, w);
    var x1, fin1 := MatchesComplete(f1, r1, a);
    var x2, fin2 := MatchesComplete(f2, r2, b);
    RunInRegion(g, f1, 0, {f2.first + f1.n}, f1.first, x1, fin1);
    RunInRegion(g, f2, f1.n, {}, f2.first, x2, fin2);
    var x := Bridge(g, f1.first, x1, fin1, f2.first + f1.n, x2, fin2 + f1.n);
    CleanJoin(a, b);
    IntoLanguage(g, x, fin2 + f1.n);
  }

  lemma ConcatMatches(f1: Nfa, f2: Nfa, g: Nfa, r1: Regex, r2: Regex)
    requires Matches(f1, r1) && Matches(f2, r2) && IsConcat(f1, f2, g)
    ensures Matches(g, Concat(r1, r2))
  {
    hide Language, Spells, SpellsLike, AcceptsLike;
    ConcatRegions(f1, f2, g);
    forall w | Language(g, w) ensures SpellsLike(Concat(r1, r2), w) {
      ConcatSound(f1, f2, g, r1, r2, w);
    }
    forall w | Spells(Concat(r1, r2), w) ensures AcceptsLike(g, w) {
      ConcatComplete(f1, f2, g, r1, r2, w);
    }
  }

  // ---------- star and plus ----------

  /** A new initial and a new final state, and a loop from the old final states to the old initial one. */
  ghost predicate IsStar(f: Nfa, includeEpsilon: bool, g: Nfa) {
    && g.n == f.n + 2 && g.first == g.n - 2 && g.finals == {g.n - 1}
    && g.arcs == f.arcs + Exits(f.finals, 0, g.n - 1) + Exits(f.finals, 0, f.first) + {Edge(g.n - 2, IDENTITY, f.first)}
      + if includeEpsilon then {Edge(g.n - 2, IDENTITY, g.n - 1)} else {}
  }

  method KleeneStarFsa(f: Nfa, includeEpsilon: bool) returns (g: Nfa)
    ensures f.finals == {} ==> g == EMPTY_FSA
    ensures f.finals != {} ==> IsStar(f, includeEpsilon, g)
  {
    hide Exits;
    if f.finals == {} {
      return EMPTY_FSA;
    }
    var n := f.n + 2;
    var arcs := AddExits(f.arcs, f.finals, 0, n - 1);
    arcs := AddExits(arcs, f.finals, 0, f.first);
    arcs := arcs + {Edge(n - 2, IDENTITY, f.first)};
    if includeEpsilon {
      arcs := arcs + {Edge(n - 2, IDENTITY, n - 1)};
    }
    g := Nfa(n, n - 2, {n - 1}, arcs);
  }

  lemma StarEdge(f: Nfa, includeEpsilon: bool, g: Nfa, e: Edge)
    requires f.Valid() && f.finals != {} && IsStar(f, includeEpsilon, g) && e in g.arcs
    ensures g.n >= 2 && e.from < g.n - 1 && e.to < g.n
    ensures InRegion(f, 0, e.from) ==> Inside(f, 0, e) || Leaving(f, 0, {g.n - 1, f.first}, e)
    ensures e.from == g.first ==> e == Edge(g.first, IDENTITY, f.first) || (includeEpsilon && e == Edge(g.first, IDENTITY, g.n - 1))
  {
    hide Exits;
    InExits(f.finals, 0, g.n - 1, e);
    InExits(f.finals, 0, f.first, e);
  }

  lemma StarRegions(f: Nfa, includeEpsilon: bool, g: Nfa)
    requires f.Valid() && f.finals != {} && IsStar(f, includeEpsilon, g)
    ensures g.n == f.n + 2 && g.first == f.n && g.finals == {g.n - 1} && g.Valid() && IsSink(g, g.n - 1)
    ensures Region(g, f, 0, {g.n - 1, f.first})
    ensures Edge(g.first, IDENTITY, f.first) in g.arcs && (includeEpsilon ==> Edge(g.first, IDENTITY, g.n - 1) in g.arcs)
    ensures forall q: nat {:trigger q in f.finals} :: q in f.finals ==> Edge(q, IDENTITY, g.n - 1) in g.arcs && Edge(q, IDENTITY, f.first) in g.arcs
  {
    hide Exits, Inside, Leaving, InRegion;
    forall e | e in g.arcs
      ensures e.from < g.n - 1 && e.to < g.n
      ensures InRegion(f, 0, e.from) ==> Inside(f, 0, e) || Leaving(f, 0, {g.n - 1, f.first}, e)
    {
      StarEdge(f, includeEpsilon, g, e);
    }
    forall e | e in Shifted(f.arcs, 0) ensures e in f.arcs {
      InShifted(f.arcs, 0, e);
    }
    RegionFrom(g, f, 0, {g.n - 1, f.first});
    forall q: nat | q in f.finals ensures Edge(q, IDENTITY, g.n - 1) in g.arcs && Edge(q, IDENTITY, f.first) in g.arcs {
      InExits(f.finals, 0, g.n - 1, Edge(q, IDENTITY, g.n - 1));
      InExits(f.finals, 0, f.first, Edge(q, IDENTITY, f.first));
    }
  }

  /** A path through the copy is cut at its loop edges into words of f. */
  lemma {:induction false} InnerSound(f: Nfa, includeEpsilon: bool, g: Nfa, c: Regex, w: seq<Pair>) returns (x: seq<Pair>)
    requires Matches(f, c) && IsStar(f, includeEpsilon, g) && Run(g, f.first, w, g.n - 1)
    ensures Spells(Plus(c), x) && Clean(x) == Clean(w)
    decreases |w|
  {
    hide Run, Region, Clean, Language, Spells, Matches, IsStar, IsSink, Repeats;
    MatchesValid(f, c);
    StarRegions(f, includeEpsilon, g);
    var w1, fin, out, w2 := Leave(g, f, 0, {g.n - 1, f.first}, f.first, w, g.n - 1);
    IntoLanguage(f, w1, fin);
    var x1 := MatchesSound(f, c, w1);
    CleanMiddle(w1, w2);
    if out == g.n - 1 {
      SinkRun(g, out, w2, g.n - 1);
      SpellsStar(c, []);
      RepeatsMore(c, x1, []);
      CleanJoin(x1, []);
      x := x1 + [];
    } else {
      var x2 := InnerSound(f, includeEpsilon, g, c, w2);
      PlusRepeats(c, x2);
      RepeatsMore(c, x1, x2);
      CleanJoin(x1, x2);
      x := x1 + x2;
    }
  }

  lemma SinkRun(g: Nfa, p: nat, w: seq<Pair>, q: nat)
    requires IsSink(g, p) && Run(g, p, w, q)
    ensures w == []
  {
  }

  lemma PlusRepeats(c: Regex, w: seq<Pair>)
    requires Spells(Plus(c), w)
    ensures Repeats(c, w)
  {
    hide Spells, Repeats;
    var a, b := SplitPlus(c, w);
    RepeatsMore(c, a, b);
  }

  lemma {:induction false} InnerComplete(f: Nfa, includeEpsilon: bool, g: Nfa, c: Regex, a: seq<Pair>, b: seq<Pair>) returns (x: seq<Pair>)
    requires Matches(f, c) && IsStar(f, includeEpsilon, g) && Spells(c, a) && Repeats(c, b)
    ensures Run(g, f.first, x, g.n - 1) && Clean(x) == Clean(a) + Clean(b)
    decreases |b|
  {
    hide Run, Region, Clean, Language, Spells, Matches, IsStar, IsSink, Repeats;
    MatchesValid(f, c);
    StarRegions(f, includeEpsilon, g);
    var x1, fin := MatchesComplete(f, c, a);
    RunInRegion(g, f, 0, {g.n - 1, f.first}, f.first, x1, fin);
    if b == [] {
      RunEmpty(g, g.n - 1, g.n - 1);
      x := Bridge(g, f.first, x1, fin, g.n - 1, [], g.n - 1);
    } else {
      var a', b' := SplitRepeats(c, b);
      var x2 := InnerComplete(f, includeEpsilon, g, c, a', b');
      CleanJoin(a', b');
      x := Bridge(g, f.first, x1, fin, f.first, x2, g.n - 1);
    }
  }

  lemma StarSound(f: Nfa, includeEpsilon: bool, g: Nfa, c: Regex, w: seq<Pair>)
    requires Matches(f, c) && IsStar(f, includeEpsilon, g) && Language(g, w)
    ensures SpellsLike(StarOf(c, includeEpsilon), w)
  {
    hide Run, Region, Clean, Language, Spells, Matches, IsStar, IsSink, Repeats;
    MatchesValid(f, c);
    StarRegions(f, includeEpsilon, g);
    var fin := OutOfLanguage(g, w);
    if w == [] {
      RunEmpty(g, g.first, fin);
      assert false;
    } else {
      var e := FirstEdge(g, g.first, w, fin);
      StarEdge(f, includeEpsilon, g, e);
      CleanFirst(w);
      if e.to == f.first {
        var x := InnerSound(f, includeEpsilon, g, c, w[1..]);
        PlusRepeats(c, x);
        SpellsStar(c, x);
      } else {
        SinkRun(g, e.to, w[1..], fin);
        SpellsStar(c, w[1..]);
      }
    }
  }

  lemma StarComplete(f: Nfa, includeEpsilon: bool, g: Nfa, c: Regex, w: seq<Pair>)
    requires Matches(f, c) && IsStar(f, includeEpsilon, g) && Spells(StarOf(c, includeEpsilon), w)
    ensures AcceptsLike(g, w)
  {
    hide Run, Region, Clean, Language, Spells, Matches, IsStar, IsSink, Repeats;
    MatchesValid(f, c);
    StarRegions(f, includeEpsilon, g);
    RunEmpty(g, g.first, g.first);
    SpellsStar(c, w);
    if includeEpsilon && w == [] {
      RunEmpty(g, g.n - 1, g.n - 1);
      var x := Bridge(g, g.first, [], g.first, g.n - 1, [], g.n - 1);
      IntoLanguage(g, x, g.n - 1);
      CleanNothing();
    } else {
      var a, b;
      if includeEpsilon {
        a, b := SplitRepeats(c, w);
      } else {
        a, b := SplitPlus(c, w);
      }
      CleanJoin(a, b);
      var y := InnerComplete(f, includeEpsilon, g, c, a, b);
      var x := Bridge(g, g.first, [], g.first, f.first, y, g.n - 1);
      CleanNothing();
      IntoLanguage(g, x, g.n - 1);
    }
  }

  lemma CleanNothing()
    ensures Clean([]) == []
  {
  }

  lemma StarMatches(f: Nfa, includeEpsilon: bool, g: Nfa, c: Regex)
    requires Matches(f, c) && IsStar(f, includeEpsilon, g)
    ensures Matches(g, StarOf(c, includeEpsilon))
  {
    hide Language, Spells, SpellsLike, AcceptsLike, StarOf;
    StarRegions(f, includeEpsilon, g);
    forall w | Language(g, w) ensures SpellsLike(StarOf(c, includeEpsilon), w) {
      StarSound(f, includeEpsilon, g, c, w);
    }
    forall w | Spells(StarOf(c, includeEpsilon), w) ensures AcceptsLike(g, w) {
      StarComplete(f, includeEpsilon, g, c, w);
    }
  }

  // ---------- the construction ----------

  /** The automaton built for an expression has exactly the relation that the expression denotes. */
  method MakeFsa(r: Regex) returns (g: Nfa)
    ensures Matches(g, r)
    ensures forall x {:trigger Relates(g, x)} {:trigger Denotes(r, x)} :: Relates(g, x) <==> Denotes(r, x)
    decreases r
  {
    hide Matches, IsUnion, IsConcat, IsStar, Relates, Denotes;
    match r {
      case Tuple(a, b) =>
        g := WordFsa(a, b);
        WordMatches(a, b, g);
      case Union(x, y) =>
        var f1 := MakeFsa(x);
        var f2 := MakeFsa(y);
        MatchesValid(f1, x);
        MatchesValid(f2, y);
        g := UnionFsa(f1, f2);
        UnionMatches(f1, f2, g, x, y);
      case Concat(x, y) =>
        var f1 := MakeFsa(x);
        var f2 := MakeFsa(y);
        MatchesValid(f1, x);
        MatchesValid(f2, y);
        g := ConcatFsa(f1, f2);
        ConcatMatches(f1, f2, g, x, y);
      case Star(c) =>
        var f := MakeFsa(c);
        MatchesValid(f, c);
        g := KleeneStarFsa(f, true);
        StarMatches(f, true, g, c);
      case Plus(c) =>
        var f := MakeFsa(c);
        MatchesValid(f, c);
        g := KleeneStarFsa(f, false);
        StarMatches(f, false, g, c);
    }
    forall x ensures Relates(g, x) <==> Denotes(r, x) {
      MatchesDenotes(g, r, x);
    }
  }
}
