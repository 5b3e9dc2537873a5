/** Deciding whether a real-time transducer is functional, by the delays of its squared automaton. */
module Functionality {
  import opened Counting
  import opened Words
  import opened Expanded

  type Pair = (nat, nat)
  type Delay = (Word, Word)

  // ---------- co-final pairs ----------

  /** Some word leads both states to final states. */
  ghost predicate CoFinal(t: FST, p: Pair) {
    exists u, x, y :: Accepts(t, p.0, u, x) && Accepts(t, p.1, u, y)
  }

  /** An arc from each state of the pair, reading the same symbol. */
  ghost predicate Joint(t: FST, a: Arc, b: Arc) {
    a in t.arcs && b in t.arcs && a.sym == b.sym
  }

  ghost function AllPairs(n: nat): set<Pair> {
    set i: nat, j: nat | i < n && j < n :: (i, j)
  }

  lemma CoFinalStep(t: FST, a: Arc, b: Arc)
    requires Joint(t, a, b) && CoFinal(t, (a.to, b.to))
    ensures CoFinal(t, (a.from, b.from))
  {
    hide Accepts;
    var u, x, y :| Accepts(t, a.to, u, x) && Accepts(t, b.to, u, y);
    AcceptsStep(t, a, u, x);
    AcceptsStep(t, b, u, y);
  }

  /** The pairs found so far: final pairs are in, and outside `open` predecessors are in. */
  ghost predicate Searched(t: FST, co: set<Pair>, open: seq<Pair>) {
    && (forall p :: p in co ==> p.0 < t.n && p.1 < t.n && CoFinal(t, p))
    && (forall p :: p in open ==> p in co)
    && (forall i, j :: i in t.final && j in t.final ==> (i, j) in co)
  }

  ghost predicate PredecessorsIn(t: FST, co: set<Pair>, p: Pair) {
    forall a, b {:trigger Joint(t, a, b)} :: Joint(t, a, b) && (a.to, b.to) == p ==> (a.from, b.from) in co
  }

  ghost predicate ClosedExcept(t: FST, co: set<Pair>, open: seq<Pair>) {
    forall p {:trigger PredecessorsIn(t, co, p)} :: p in co && p !in open ==> PredecessorsIn(t, co, p)
  }

  lemma CoFinalIsFound(t: FST, co: set<Pair>, p: Pair, u: Word, x: Word, y: Word)
    requires Searched(t, co, []) && ClosedExcept(t, co, []) && Accepts(t, p.0, u, x) && Accepts(t, p.1, u, y)
    ensures p in co
    decreases u
  {
    hide Accepts, CoFinal, PredecessorsIn;
    if u == [] {
      AcceptsEmpty(t, p.0, x);
      AcceptsEmpty(t, p.1, y);
    } else {
      var a, x' := FirstArc(t, p.0, u, x);
      var b, y' := FirstArc(t, p.1, u, y);
      CoFinalIsFound(t, co, (a.to, b.to), u[1..], x', y');
      assert PredecessorsIn(t, co, (a.to, b.to));
      PredecessorIn(t, co, a, b);
    }
  }

  lemma PredecessorIn(t: FST, co: set<Pair>, a: Arc, b: Arc)
    requires PredecessorsIn(t, co, (a.to, b.to)) && Joint(t, a, b)
    ensures (a.from, b.from) in co
  {
  }

  lemma MarkCoFinal(t: FST, co: set<Pair>, open: seq<Pair>, a: Arc, b: Arc)
    requires t.Valid() && Searched(t, co, open) && Joint(t, a, b) && (a.to, b.to) in co
    ensures Searched(t, co + {(a.from, b.from)}, open + [(a.from, b.from)])
  {
    CoFinalStep(t, a, b);
  }

  lemma MarkKeepsClosed(t: FST, co: set<Pair>, open: seq<Pair>, head: seq<Pair>, p: Pair)
    requires ClosedExcept(t, co, head + open)
    ensures ClosedExcept(t, co + {p}, head + (open + [p]))
  {
    forall q | q in co + {p} && q !in head + (open + [p]) ensures PredecessorsIn(t, co + {p}, q) {
      assert p in [p] && q !in [p];
      assert q !in head && q !in open;
      assert PredecessorsIn(t, co, q);
    }
  }

  /** One round of the backward search: the predecessor pairs of p. */
  method VisitPredecessors(t: FST, p: Pair, co0: set<Pair>, queue0: seq<Pair>) returns (co: set<Pair>, queue: seq<Pair>)
    requires t.Valid() && Searched(t, co0, queue0) && p in co0 && ClosedExcept(t, co0, [p] + queue0)
    ensures Searched(t, co, queue) && ClosedExcept(t, co, queue) && co0 <= co
    ensures co == co0 ==> queue == queue0
  {
    hide CoFinal, PredecessorsIn, ClosedExcept, Searched;
    co, queue := co0, queue0;
    for i := 0 to |t.arcs|
      invariant Searched(t, co, queue) && ClosedExcept(t, co, [p] + queue) && co0 <= co && (co == co0 ==> queue == queue0)
      invariant forall k, l :: 0 <= k < i && 0 <= l < |t.arcs| ==> PredecessorDone(t, p, co, t.arcs[k], t.arcs[l])
    {
      var a := t.arcs[i];
      if a.to == p.0 {
        for j := 0 to |t.arcs|
          invariant Searched(t, co, queue) && ClosedExcept(t, co, [p] + queue) && co0 <= co && (co == co0 ==> queue == queue0)
          invariant forall k, l :: 0 <= k < i && 0 <= l < |t.arcs| ==> PredecessorDone(t, p, co, t.arcs[k], t.arcs[l])
          invariant forall l :: 0 <= l < j ==> PredecessorDone(t, p, co, a, t.arcs[l])
        {
          var b := t.arcs[j];
          if b.to == p.1 && a.sym == b.sym {
            var q := (a.from, b.from);
            if q !in co {
              assert Joint(t, a, b);
              MarkCoFinal(t, co, queue, a, b);
              MarkKeepsClosed(t, co, queue, [p], q);
              co, queue := co + {q}, queue + [q];
            }
          }
        }
      }
    }
    AllPredecessorsDone(t, p, co, queue);
  }

  ghost predicate PredecessorDone(t: FST, p: Pair, co: set<Pair>, a: Arc, b: Arc) {
    a.to == p.0 && b.to == p.1 && a.sym == b.sym ==> (a.from, b.from) in co
  }

  lemma AllPredecessorsDone(t: FST, p: Pair, co: set<Pair>, queue: seq<Pair>)
    requires ClosedExcept(t, co, [p] + queue)
    requires forall k, l :: 0 <= k < |t.arcs| && 0 <= l < |t.arcs| ==> PredecessorDone(t, p, co, t.arcs[k], t.arcs[l])
    ensures ClosedExcept(t, co, queue)
  {
    forall q | q in co && q !in queue ensures PredecessorsIn(t, co, q) {
      if q == p {
        forall a, b | Joint(t, a, b) && (a.to, b.to) == p ensures (a.from, b.from) in co {
          var k :| 0 <= k < |t.arcs| && t.arcs[k] == a;
          var l :| 0 <= l < |t.arcs| && t.arcs[l] == b;
          assert PredecessorDone(t, p, co, t.arcs[k], t.arcs[l]);
        }
      } else {
        assert q !in [p] + queue;
        assert PredecessorsIn(t, co, q);
      }
    }
  }

  method FinalPairs(t: FST) returns (queue: seq<Pair>, co: set<Pair>)
    requires t.Valid()
    ensures forall p :: p in co <==> p.0 in t.final && p.1 in t.final
    ensures forall p :: p in queue <==> p in co
  {
    queue, co := [], {};
    for q := 0 to t.n
      invariant forall p :: p in co <==> p.0 < q && p.0 in t.final && p.1 in t.final
      invariant forall p :: p in queue <==> p in co
    {
      if q in t.final {
        for h := 0 to t.n
          invariant forall p :: p in co <==> (p.0 < q && p.0 in t.final && p.1 in t.final) || (p.0 == q && p.1 < h && p.1 in t.final)
          invariant forall p :: p in queue <==> p in co
        {
          if h in t.final {
            queue, co := queue + [(q, h)], co + {(q, h)};
          }
        }
      }
    }
  }

  /** The search backwards from the pairs of final states. */
  method FindCoFinals(t: FST) returns (co: set<Pair>)
    requires t.Valid()
    ensures forall p :: p in co <==> p.0 < t.n && p.1 < t.n && CoFinal(t, p)
  {
    hide PredecessorsIn, Accepts, AllPairs;
    var queue: seq<Pair>;
    queue, co := FinalPairs(t);
    FinalsAreCoFinal(t, co, queue);
    while queue != []
      invariant Searched(t, co, queue) && ClosedExcept(t, co, queue)
      decreases AllPairs(t.n) - co, |queue|
    {
      var p := queue[0];
      assert p in queue && [p] + queue[1..] == queue;
      ghost var co0 := co;
      co, queue := VisitPredecessors(t, p, co, queue[1..]);
      FewerLeft(t, co0, co);
    }
    forall p: Pair | p.0 < t.n && p.1 < t.n && CoFinal(t, p) ensures p in co {
      var u, x, y :| Accepts(t, p.0, u, x) && Accepts(t, p.1, u, y);
      CoFinalIsFound(t, co, p, u, x, y);
    }
  }

  lemma FinalsAreCoFinal(t: FST, co: set<Pair>, queue: seq<Pair>)
    requires t.Valid() && (forall p :: p in co <==> p.0 in t.final && p.1 in t.final) && forall p :: p in queue <==> p in co
    ensures Searched(t, co, queue) && ClosedExcept(t, co, queue)
  {
    forall p | p in co ensures CoFinal(t, p) {
      assert Accepts(t, p.0, [], []) && Accepts(t, p.1, [], []);
    }
  }

  lemma FewerLeft(t: FST, co0: set<Pair>, co: set<Pair>)
    requires co0 <= co && forall p :: p in co ==> p.0 < t.n && p.1 < t.n
    ensures co == co0 || AllPairs(t.n) - co < AllPairs(t.n) - co0
  {
    if co != co0 {
      var p :| p in co && p !in co0;
      assert p in AllPairs(t.n) - co0;
    }
  }

  // ---------- delays ----------

  /** What is left of two outputs after their greatest common prefix. */
  function Balance(u: Word, v: Word): (r: Delay)
    ensures Gcp(u, v) + r.0 == u && Gcp(u, v) + r.1 == v
    ensures r.0 == [] || r.1 == [] || r.0[0] != r.1[0]
  {
    var g := Gcp(u, v);
    (InvMul(g, u), InvMul(g, v))
  }

  predicate Balancible(d: Delay) {
    d.0 == [] || d.1 == []
  }

  /** Two paths from initial states read the same word, reach the pair, and write c.d0 and c.d1 for some c. */
  ghost predicate Reached(t: FST, p: Pair, d: Delay) {
    exists s, s', x, c :: s in t.initial && s' in t.initial && Run(t, s, x, c + d.0, p.0) && Run(t, s', x, c + d.1, p.1)
  }

  ghost predicate PathFunctional(t: FST) {
    forall u, v, w :: PathRel(t, u, v) && PathRel(t, u, w) ==> v == w
  }

  lemma FunctionalOnPaths(t: FST)
    requires t.Valid()
    ensures Functional(t) <==> |t.fEps| <= 1 && PathFunctional(t)
  {
    if |t.fEps| > 1 {
      assert Rel(t, [], t.fEps[0]) && Rel(t, [], t.fEps[1]);
    }
    if Functional(t) {
      forall u, v, w | PathRel(t, u, v) && PathRel(t, u, w) ensures v == w {
        if u != [] {
          assert Rel(t, u, v) && Rel(t, u, w);
        }
      }
    }
  }

  lemma Regroup(c: Word, d: Word, w: Word, g: Word, e: Word)
    requires d + w == g + e
    ensures (c + d) + w == (c + g) + e
  {
    assert (c + d) + w == c + (d + w) && (c + g) + e == c + (g + e);
  }

  lemma ReachedStep(t: FST, a: Arc, b: Arc, d: Delay)
    requires Joint(t, a, b) && Reached(t, (a.from, b.from), d)
    ensures Reached(t, (a.to, b.to), Balance(d.0 + a.out, d.1 + b.out))
  {
    hide Run, Balance;
    var s, s', x, c :| s in t.initial && s' in t.initial && Run(t, s, x, c + d.0, a.from) && Run(t, s', x, c + d.1, b.from);
    var u, v := d.0 + a.out, d.1 + b.out;
    var g, e := Gcp(u, v), Balance(u, v);
    RunThenArc(t, s, x, c + d.0, a);
    RunThenArc(t, s', x, c + d.1, b);
    Regroup(c, d.0, a.out, g, e.0);
    Regroup(c, d.1, b.out, g, e.1);
    assert Run(t, s, x + [a.sym], (c + g) + e.0, a.to) && Run(t, s', x + [a.sym], (c + g) + e.1, b.to);
  }

  /** If the relation is functional, the delay is what the completions still have to make up for. */
  lemma CompletionsAgree(t: FST, p: Pair, d: Delay, u: Word, x: Word, y: Word)
    requires PathFunctional(t) && Reached(t, p, d) && Accepts(t, p.0, u, x) && Accepts(t, p.1, u, y)
    ensures d.0 + x == d.1 + y
  {
    hide Run, Accepts;
    var s, s', z, c :| s in t.initial && s' in t.initial && Run(t, s, z, c + d.0, p.0) && Run(t, s', z, c + d.1, p.1);
    RunThenAccepts(t, s, z, c + d.0, p.0, u, x);
    RunThenAccepts(t, s', z, c + d.1, p.1, u, y);
    assert PathRel(t, z + u, c + d.0 + x) && PathRel(t, z + u, c + d.1 + y);
    assert c + d.0 + x == c + (d.0 + x) && c + d.1 + y == c + (d.1 + y);
    PrefixCancel(c, d.0 + x, d.1 + y);
    PrefixCancel(c, d.1 + y, d.0 + x);
  }

  lemma BalancedDelaysEqual(d: Delay, e: Delay, x: Word, y: Word)
    requires Balancible(d) && Balancible(e) && d.0 + x == d.1 + y && e.0 + x == e.1 + y
    ensures d == e
  {
    assert |d.0| - |d.1| == |y| - |x| == |e.0| - |e.1|;
    if |x| <= |y| {
      assert d.0 == (d.0 + x)[..|d.0|] == y[..|d.0|] && e.0 == (e.0 + x)[..|e.0|] == y[..|e.0|];
    } else {
      assert d.1 == (d.1 + y)[..|d.1|] == x[..|d.1|] && e.1 == (e.1 + y)[..|e.1|] == x[..|e.1|];
    }
  }

  lemma UnbalancedDelaysDiffer(d: Delay, x: Word, y: Word)
    requires !Balancible(d) && d.0[0] != d.1[0]
    ensures d.0 + x != d.1 + y
  {
    assert (d.0 + x)[0] == d.0[0] && (d.1 + y)[0] == d.1[0];
  }

  // ---------- the forward search ----------

  type Admitted = map<Pair, Delay>

  ghost predicate Admissible(t: FST, adm: Admitted) {
    forall p :: p in adm ==>
      p.0 < t.n && p.1 < t.n && Balancible(adm[p]) && Reached(t, p, adm[p])
      && (p.0 in t.final && p.1 in t.final ==> adm[p] == ([], []))
  }

  ghost predicate Extends(old_: Admitted, new_: Admitted) {
    forall p :: p in old_ ==> p in new_ && new_[p] == old_[p]
  }

  /** The joint arcs a, b of p lead to a pair that is admitted with the delay they cause. */
  ghost predicate SuccessorDone(t: FST, co: set<Pair>, adm: Admitted, p: Pair, a: Arc, b: Arc)
    requires p in adm
  {
    a.from == p.0 && b.from == p.1 && a.sym == b.sym && (a.to, b.to) in co ==>
      (a.to, b.to) in adm && adm[(a.to, b.to)] == Balance(adm[p].0 + a.out, adm[p].1 + b.out)
  }

  ghost predicate PairDone(t: FST, co: set<Pair>, adm: Admitted, p: Pair)
    requires p in adm
  {
    forall a, b {:trigger SuccessorDone(t, co, adm, p, a, b)} :: a in t.arcs && b in t.arcs ==> SuccessorDone(t, co, adm, p, a, b)
  }

  ghost predicate DoneExcept(t: FST, co: set<Pair>, adm: Admitted, open: seq<Pair>) {
    forall p {:trigger PairDone(t, co, adm, p)} :: p in adm && p !in open ==> PairDone(t, co, adm, p)
  }

  lemma DoneStays(t: FST, co: set<Pair>, adm: Admitted, adm': Admitted, p: Pair, a: Arc, b: Arc)
    requires p in adm && Extends(adm, adm') && SuccessorDone(t, co, adm, p, a, b)
    ensures SuccessorDone(t, co, adm', p, a, b)
  {
  }

  lemma AdmitKeepsDone(t: FST, co: set<Pair>, adm: Admitted, open: seq<Pair>, head: seq<Pair>, q: Pair, e: Delay)
    requires DoneExcept(t, co, adm, head + open) && q !in adm
    ensures DoneExcept(t, co, adm[q := e], head + (open + [q]))
  {
    var adm' := adm[q := e];
    forall p | p in adm' && p !in head + (open + [q]) ensures PairDone(t, co, adm', p) {
      assert q in [q] && p !in [q] && p !in head && p !in open;
      assert PairDone(t, co, adm, p);
      forall a, b | a in t.arcs && b in t.arcs ensures SuccessorDone(t, co, adm', p, a, b) {
        assert SuccessorDone(t, co, adm, p, a, b);
        DoneStays(t, co, adm, adm', p, a, b);
      }
    }
  }

  /** The three tests applied to the delay e of a new arrival at q. */
  predicate Passes(t: FST, adm: Admitted, q: Pair, e: Delay) {
    && Balancible(e)
    && (!(q.0 in t.final && q.1 in t.final) || (|e.0| == 0 && |e.1| == 0))
    && (q !in adm || (e.0 == adm[q].0 && e.1 == adm[q].1))
  }

  /** A failed test exhibits a word with two outputs. */
  lemma FailureIsReal(t: FST, adm: Admitted, a: Arc, b: Arc, d: Delay)
    requires Joint(t, a, b) && Reached(t, (a.from, b.from), d) && CoFinal(t, (a.to, b.to)) && Admissible(t, adm)
    requires !Passes(t, adm, (a.to, b.to), Balance(d.0 + a.out, d.1 + b.out))
    ensures !PathFunctional(t)
  {
    hide Reached, Accepts, Balance, PathFunctional;
    var q := (a.to, b.to);
    var e := Balance(d.0 + a.out, d.1 + b.out);
    ReachedStep(t, a, b, d);
    var u, x, y :| Accepts(t, q.0, u, x) && Accepts(t, q.1, u, y);
    if PathFunctional(t) {
      CompletionsAgree(t, q, e, u, x, y);
      if !Balancible(e) {
        UnbalancedDelaysDiffer(e, x, y);
      } else if q in adm && e != adm[q] {
        CompletionsAgree(t, q, adm[q], u, x, y);
        BalancedDelaysEqual(e, adm[q], x, y);
      } else {
        AcceptsEmpty(t, q.0, []);
        AcceptsEmpty(t, q.1, []);
        CompletionsAgree(t, q, e, [], [], []);
        assert false;
      }
    }
  }

  ghost predicate ArcDone(t: FST, co: set<Pair>, adm: Admitted, p: Pair, a: Arc, n: nat)
    requires p in adm && n <= |t.arcs|
  {
    forall l {:trigger SuccessorDone(t, co, adm, p, a, t.arcs[l])} :: 0 <= l < n ==> SuccessorDone(t, co, adm, p, a, t.arcs[l])
  }

  /** What the forward search keeps while it works on p: see `IsFunctional`. */
  ghost predicate Forward(t: FST, co: set<Pair>, adm: Admitted, head: seq<Pair>, queue: seq<Pair>) {
    Admissible(t, adm) && DoneExcept(t, co, adm, head + queue) && forall q :: q in head + queue ==> q in adm
  }

  lemma Admit(t: FST, co: set<Pair>, adm: Admitted, head: seq<Pair>, queue: seq<Pair>, a: Arc, b: Arc, d: Delay)
    requires t.Valid() && Forward(t, co, adm, head, queue) && Joint(t, a, b) && (a.to, b.to) !in adm && Reached(t, (a.from, b.from), d)
    requires Passes(t, adm, (a.to, b.to), Balance(d.0 + a.out, d.1 + b.out))
    ensures Forward(t, co, adm[(a.to, b.to) := Balance(d.0 + a.out, d.1 + b.out)], head, queue + [(a.to, b.to)])
  {
    hide Reached, Balance;
    var q, e := (a.to, b.to), Balance(d.0 + a.out, d.1 + b.out);
    ReachedStep(t, a, b, d);
    AdmitKeepsDone(t, co, adm, queue, head, q, e);
    assert forall x :: x in head + (queue + [q]) ==> x in head + queue || x == q;
  }

  lemma ArcsStayDone(t: FST, co: set<Pair>, adm: Admitted, adm': Admitted, p: Pair, i: nat, n: nat)
    requires p in adm && Extends(adm, adm') && i <= |t.arcs| && n <= |t.arcs|
    ensures forall k {:trigger ArcDone(t, co, adm', p, t.arcs[k], n)} ::
              0 <= k < i && ArcDone(t, co, adm, p, t.arcs[k], n) ==> ArcDone(t, co, adm', p, t.arcs[k], n)
  {
    forall k | 0 <= k < i && ArcDone(t, co, adm, p, t.arcs[k], n) ensures ArcDone(t, co, adm', p, t.arcs[k], n) {
      forall l | 0 <= l < n ensures SuccessorDone(t, co, adm', p, t.arcs[k], t.arcs[l]) {
        DoneStays(t, co, adm, adm', p, t.arcs[k], t.arcs[l]);
      }
    }
  }

  lemma ExtendsTransitive(x: Admitted, y: Admitted, z: Admitted)
    requires Extends(x, y) && Extends(y, z)
    ensures Extends(x, z)
  {
  }

  /** Exactly the pairs that are newly admitted have been queued, each of them once. */
  ghost predicate Queued(adm0: Admitted, queue0: seq<Pair>, adm: Admitted, queue: seq<Pair>) {
    && |queue0| <= |queue| && queue[..|queue0|] == queue0 && NoRepeats(queue[|queue0|..])
    && (forall q {:trigger q in queue[|queue0|..]} :: q in queue[|queue0|..] ==> q !in adm0)
    && (forall q {:trigger q in adm} :: q in adm <==> q in adm0 || q in queue[|queue0|..])
  }

  lemma QueuedNothing(adm: Admitted, queue: seq<Pair>)
    ensures Queued(adm, queue, adm, queue)
  {
    assert queue[|queue|..] == [];
  }

  lemma QueuedOne(adm0: Admitted, queue0: seq<Pair>, adm: Admitted, queue: seq<Pair>, q: Pair, e: Delay)
    requires Queued(adm0, queue0, adm, queue) && q !in adm
    ensures Queued(adm0, queue0, adm[q := e], queue + [q])
  {
    var a := queue[|queue0|..];
    assert (queue + [q])[..|queue0|] == queue[..|queue0|];
    assert (queue + [q])[|queue0|..] == a + [q];
    forall x: Pair ensures x in adm[q := e] <==> x in adm0 || x in a + [q] {
      assert x in a + [q] <==> x in a || x == q;
    }
    assert q !in a;
  }

  lemma NoRepeatsJoin(a: seq<Pair>, b: seq<Pair>)
    requires NoRepeats(a) && NoRepeats(b) && forall x :: x in a ==> x !in b
    ensures NoRepeats(a + b)
    ensures forall x {:trigger x in a + b} :: x in a + b <==> x in a || x in b
  {
    var ab: seq<Pair> := a + b;
    forall i, j | 0 <= i < j < |ab| ensures ab[i] != ab[j] {
      if i < |a| && |a| <= j {
        assert a[i] in a && b[j - |a|] in b;
      }
    }
  }

  lemma QueuedMore(adm0: Admitted, queue0: seq<Pair>, adm: Admitted, queue: seq<Pair>, adm': Admitted, queue': seq<Pair>)
    requires Queued(adm0, queue0, adm, queue) && Queued(adm, queue, adm', queue')
    ensures Queued(adm0, queue0, adm', queue')
  {
    hide NoRepeats;
    var a, b := queue[|queue0|..], queue'[|queue|..];
    assert queue' == queue + b && queue == queue0 + a;
    assert queue'[..|queue0|] == queue0 && queue'[|queue0|..] == a + b;
    NoRepeatsJoin(a, b);
  }

  /** All pairs queued so far are the admitted ones, each of them once. */
  ghost predicate History(adm: Admitted, all: seq<Pair>) {
    NoRepeats(all) && forall q {:trigger q in adm} {:trigger q in all} :: q in adm <==> q in all
  }

  lemma HistoryMore(done: seq<Pair>, queue0: seq<Pair>, adm0: Admitted, queue: seq<Pair>, adm: Admitted)
    requires History(adm0, done + queue0) && Queued(adm0, queue0, adm, queue)
    ensures History(adm, done + queue)
  {
    hide NoRepeats;
    var a, b := done + queue0, queue[|queue0|..];
    assert queue == queue0 + b && done + queue == a + b;
    NoRepeatsJoin(a, b);
  }

  lemma ForwardAdmits(t: FST, co: set<Pair>, adm: Admitted, head: seq<Pair>, queue: seq<Pair>)
    requires Forward(t, co, adm, head, queue)
    ensures Admissible(t, adm)
  {
  }

  lemma HistoryStart(adm: Admitted, queue: seq<Pair>)
    requires NoRepeats(queue) && forall p :: p in queue <==> p in adm
    ensures History(adm, [] + queue)
  {
    assert [] + queue == queue;
  }

  lemma PopPair(t: FST, co: set<Pair>, adm: Admitted, queue: seq<Pair>, popped: seq<Pair>)
    requires Forward(t, co, adm, [], queue) && History(adm, popped + queue) && queue != []
    ensures Forward(t, co, adm, [queue[0]], queue[1..]) && queue[0] in adm && History(adm, (popped + [queue[0]]) + queue[1..])
  {
    hide Admissible;
    assert [] + queue == queue && [queue[0]] + queue[1..] == queue;
    assert (popped + [queue[0]]) + queue[1..] == popped + queue;
  }

  lemma HistoryBound(t: FST, adm: Admitted, all: seq<Pair>)
    requires Admissible(t, adm) && History(adm, all)
    ensures NoRepeats(all) && |all| <= t.n * t.n
  {
    hide Reached, NoRepeats;
    FewPairs(all, t.n);
  }

  lemma NothingQueued(n: nat)
    ensures NoRepeats([]) && 0 <= n * n
  {
  }

  lemma PairsInRange(t: FST, adm: Admitted)
    requires Admissible(t, adm)
    ensures forall p :: p in adm ==> p.0 < t.n && p.1 < t.n
  {
    hide Reached;
  }

  /** The arcs of p's second state against one arc a of its first. */
  method ExpandArc(t: FST, co: set<Pair>, p: Pair, a: Arc, adm0: Admitted, queue0: seq<Pair>)
    returns (ok: bool, adm: Admitted, queue: seq<Pair>)
    requires t.Valid() && forall q :: q in co ==> CoFinal(t, q)
    requires Forward(t, co, adm0, [p], queue0) && p in adm0 && a in t.arcs && a.from == p.0
    ensures !ok ==> !PathFunctional(t)
    ensures Extends(adm0, adm) && (adm == adm0 ==> queue == queue0) && Queued(adm0, queue0, adm, queue)
    ensures Admissible(t, adm)
    ensures ok ==> Forward(t, co, adm, [p], queue) && p in adm && ArcDone(t, co, adm, p, a, |t.arcs|)
  {
    hide CoFinal, Reached, PathFunctional, DoneExcept, Passes, Balance, Queued;
    adm, queue := adm0, queue0;
    QueuedNothing(adm, queue);
    ghost var d := adm[p];
    for j := 0 to |t.arcs|
      invariant Forward(t, co, adm, [p], queue) && Extends(adm0, adm) && (adm == adm0 ==> queue == queue0)
      invariant p in adm && adm[p] == d && ArcDone(t, co, adm, p, a, j) && Queued(adm0, queue0, adm, queue)
    {
      var b := t.arcs[j];
      if b.from == p.1 && a.sym == b.sym && (a.to, b.to) in co {
        var q := (a.to, b.to);
        var (u, v) := adm[p];
        var e := Balance(u + a.out, v + b.out);
        assert Joint(t, a, b);
        if !Passes(t, adm, q, e) {
          FailureIsReal(t, adm, a, b, d);
          return false, adm, queue;
        }
        if q !in adm {
          Admit(t, co, adm, [p], queue, a, b, d);
          ExtendArcDone(t, co, adm, p, a, j, q, e);
          QueuedOne(adm0, queue0, adm, queue, q, e);
          adm, queue := adm[q := e], queue + [q];
        } else {
          PassedIsSame(t, adm, q, e);
        }
      }
      assert SuccessorDone(t, co, adm, p, a, b);
    }
    ok := true;
  }

  lemma PassedIsSame(t: FST, adm: Admitted, q: Pair, e: Delay)
    requires Passes(t, adm, q, e) && q in adm
    ensures adm[q] == e
  {
  }

  lemma ExtendArcDone(t: FST, co: set<Pair>, adm: Admitted, p: Pair, a: Arc, n: nat, q: Pair, e: Delay)
    requires p in adm && n <= |t.arcs| && ArcDone(t, co, adm, p, a, n) && q !in adm
    ensures Extends(adm, adm[q := e]) && ArcDone(t, co, adm[q := e], p, a, n)
  {
    forall l | 0 <= l < n ensures SuccessorDone(t, co, adm[q := e], p, a, t.arcs[l]) {
      DoneStays(t, co, adm, adm[q := e], p, a, t.arcs[l]);
    }
  }

  /** All joint arcs of p whose target pair is co-final. */
  method ExpandPair(t: FST, co: set<Pair>, p: Pair, adm0: Admitted, queue0: seq<Pair>)
    returns (ok: bool, adm: Admitted, queue: seq<Pair>)
    requires t.Valid() && forall q :: q in co ==> CoFinal(t, q)
    requires Forward(t, co, adm0, [p], queue0) && p in adm0
    ensures !ok ==> !PathFunctional(t)
    ensures Extends(adm0, adm) && (adm == adm0 ==> queue == queue0) && Queued(adm0, queue0, adm, queue)
    ensures Admissible(t, adm)
    ensures ok ==> Forward(t, co, adm, [], queue)
  {
    hide CoFinal, Forward, PathFunctional, ArcDone, Queued, Admissible;
    adm, queue := adm0, queue0;
    QueuedNothing(adm, queue);
    for i := 0 to |t.arcs|
      invariant Forward(t, co, adm, [p], queue) && Extends(adm0, adm) && (adm == adm0 ==> queue == queue0) && p in adm
      invariant Queued(adm0, queue0, adm, queue)
      invariant forall k {:trigger ArcDone(t, co, adm, p, t.arcs[k], |t.arcs|)} ::
                  0 <= k < i && t.arcs[k].from == p.0 ==> ArcDone(t, co, adm, p, t.arcs[k], |t.arcs|)
    {
      if t.arcs[i].from == p.0 {
        ghost var before, queueBefore := adm, queue;
        ok, adm, queue := ExpandArc(t, co, p, t.arcs[i], adm, queue);
        ExtendsTransitive(adm0, before, adm);
        SizesGrow(adm0, before, adm, queue0, queueBefore, queue);
        QueuedMore(adm0, queue0, before, queueBefore, adm, queue);
        if !ok {
          return;
        }
        ArcsStayDone(t, co, before, adm, p, i, |t.arcs|);
      }
    }
    ok := true;
    ForwardAdmits(t, co, adm, [p], queue);
    PairIsDone(t, co, adm, p, queue);
  }

  lemma SizesGrow(x: Admitted, y: Admitted, z: Admitted, a: seq<Pair>, b: seq<Pair>, c: seq<Pair>)
    requires Extends(x, y) && Extends(y, z) && (y == x ==> b == a) && (z == y ==> c == b)
    ensures z == x ==> c == a
  {
    if z == x {
      assert y == x;
    }
  }

  lemma PairIsDone(t: FST, co: set<Pair>, adm: Admitted, p: Pair, queue: seq<Pair>)
    requires Forward(t, co, adm, [p], queue) && p in adm
    requires forall k {:trigger ArcDone(t, co, adm, p, t.arcs[k], |t.arcs|)} ::
               0 <= k < |t.arcs| && t.arcs[k].from == p.0 ==> ArcDone(t, co, adm, p, t.arcs[k], |t.arcs|)
    ensures Forward(t, co, adm, [], queue)
  {
    assert [] + queue == queue;
    forall q | q in adm && q !in queue ensures PairDone(t, co, adm, q) {
      if q == p {
        forall a, b | a in t.arcs && b in t.arcs ensures SuccessorDone(t, co, adm, p, a, b) {
          var k :| 0 <= k < |t.arcs| && t.arcs[k] == a;
          var l :| 0 <= l < |t.arcs| && t.arcs[l] == b;
          if a.from == p.0 {
            assert ArcDone(t, co, adm, p, t.arcs[k], |t.arcs|);
            assert SuccessorDone(t, co, adm, p, t.arcs[k], t.arcs[l]);
          }
        }
      } else {
        assert q !in [p] + queue;
      }
    }
  }

  method InitialPairs(t: FST) returns (adm: Admitted, queue: seq<Pair>)
    requires t.Valid()
    ensures forall p :: p in adm <==> p.0 in t.initial && p.1 in t.initial
    ensures forall p :: p in adm ==> adm[p] == ([], [])
    ensures forall p :: p in queue <==> p in adm
    ensures NoRepeats(queue)
  {
    adm, queue := map[], [];
    for q := 0 to t.n
      invariant forall p :: p in adm <==> p.0 < q && p.0 in t.initial && p.1 in t.initial
      invariant forall p :: p in adm ==> adm[p] == ([], [])
      invariant forall p :: p in queue <==> p in adm
      invariant NoRepeats(queue)
    {
      if q in t.initial {
        for h := 0 to t.n
          invariant forall p :: p in adm <==> (p.0 < q && p.0 in t.initial && p.1 in t.initial) || (p.0 == q && p.1 < h && p.1 in t.initial)
          invariant forall p :: p in adm ==> adm[p] == ([], [])
          invariant forall p :: p in queue <==> p in adm
          invariant NoRepeats(queue)
        {
          if h in t.initial {
            assert (q, h) !in queue;
            adm, queue := adm[(q, h) := ([], [])], queue + [(q, h)];
          }
        }
      }
    }
  }

  lemma ForwardStart(t: FST, co: set<Pair>, adm: Admitted, queue: seq<Pair>)
    requires t.Valid() && (forall p :: p in adm <==> p.0 in t.initial && p.1 in t.initial)
    requires (forall p :: p in adm ==> adm[p] == ([], [])) && forall p :: p in queue <==> p in adm
    ensures Forward(t, co, adm, [], queue)
  {
    assert [] + queue == queue;
    forall p | p in adm ensures Reached(t, p, adm[p]) {
      RunEmpty(t, p.0, [], p.0);
      RunEmpty(t, p.1, [], p.1);
      var e: Word := [];
      assert Run(t, p.0, [], e + [], p.0) && Run(t, p.1, [], e + [], p.1);
    }
  }

  lemma Shift(d: Word, w: Word, g: Word, e: Word, x: Word)
    requires d + w == g + e
    ensures d + (w + x) == g + (e + x)
  {
    assert d + (w + x) == (d + w) + x && (g + e) + x == g + (e + x);
  }

  lemma BalanceAndRest(v: Word, w: Word)
    ensures v == Gcp(v, w) + Balance(v, w).0 && w == Gcp(v, w) + Balance(v, w).1
  {
  }

  /** Once every admitted pair is done, admitted delays predict all completions. */
  lemma DelaysPredict(t: FST, co: set<Pair>, adm: Admitted, p: Pair, u: Word, x: Word, y: Word)
    requires t.Valid() && Forward(t, co, adm, [], []) && p in adm
    requires forall q :: q in co <==> q.0 < t.n && q.1 < t.n && CoFinal(t, q)
    requires Accepts(t, p.0, u, x) && Accepts(t, p.1, u, y)
    ensures adm[p].0 + x == adm[p].1 + y
    decreases u
  {
    hide Accepts, Reached, Balance;
    if u == [] {
      AcceptsEmpty(t, p.0, x);
      AcceptsEmpty(t, p.1, y);
    } else {
      var a, x' := FirstArc(t, p.0, u, x);
      var b, y' := FirstArc(t, p.1, u, y);
      var q := (a.to, b.to);
      assert CoFinal(t, q);
      assert PairDone(t, co, adm, p) && SuccessorDone(t, co, adm, p, a, b);
      DelaysPredict(t, co, adm, q, u[1..], x', y');
      var v, w := adm[p].0 + a.out, adm[p].1 + b.out;
      var g, e := Gcp(v, w), Balance(v, w);
      BalanceAndRest(v, w);
      Shift(adm[p].0, a.out, g, e.0, x');
      Shift(adm[p].1, b.out, g, e.1, y');
    }
  }

  lemma FinishedIsFunctional(t: FST, co: set<Pair>, adm: Admitted)
    requires t.Valid() && Forward(t, co, adm, [], [])
    requires forall p :: p in co <==> p.0 < t.n && p.1 < t.n && CoFinal(t, p)
    requires forall p: Pair :: p.0 in t.initial && p.1 in t.initial ==> p in adm && adm[p] == ([], [])
    ensures PathFunctional(t)
  {
    hide Accepts, Forward, CoFinal;
    forall u, v, w | PathRel(t, u, v) && PathRel(t, u, w) ensures v == w {
      var s :| s in t.initial && Accepts(t, s, u, v);
      var s' :| s' in t.initial && Accepts(t, s', u, w);
      DelaysPredict(t, co, adm, (s, s'), u, v, w);
      assert [] + v == v && [] + w == w;
    }
  }

  lemma FewerToAdmit(t: FST, x: Admitted, y: Admitted)
    requires Extends(x, y) && forall p :: p in y ==> p.0 < t.n && p.1 < t.n
    ensures y == x || AllPairs(t.n) - y.Keys < AllPairs(t.n) - x.Keys
  {
    if y != x {
      assert y.Keys != x.Keys;
      var p :| p in y.Keys && p !in x.Keys;
      assert p in AllPairs(t.n) - x.Keys;
    }
  }

  /** True exactly when no word has two different outputs. `queued` lists the pairs in the order in which they enter
      the queue: each enters at most once, so there are at most n * n of them. */
  method IsFunctional(t: FST) returns (functional: bool, ghost queued: seq<Pair>)
    requires t.Valid()
    ensures functional <==> Functional(t)
    ensures NoRepeats(queued) && |queued| <= t.n * t.n
  {
    hide Accepts, Functional, PathFunctional, CoFinal, AllPairs, Forward, Queued, History, NoRepeats, Admissible;
    FunctionalOnPaths(t);
    if |t.fEps| > 1 {
      NothingQueued(t.n);
      return false, [];
    }
    var co := FindCoFinals(t);
    var adm, queue := InitialPairs(t);
    ForwardStart(t, co, adm, queue);
    ghost var start := adm;
    ghost var popped: seq<Pair> := [];
    HistoryStart(adm, queue);
    while queue != []
      invariant Forward(t, co, adm, [], queue) && Extends(start, adm) && History(adm, popped + queue)
      decreases AllPairs(t.n) - adm.Keys, |queue|
    {
      var p := queue[0];
      PopPair(t, co, adm, queue, popped);
      popped := popped + [p];
      ghost var before, rest := adm, queue[1..];
      var ok;
      ok, adm, queue := ExpandPair(t, co, p, adm, queue[1..]);
      HistoryMore(popped, rest, before, queue, adm);
      if !ok {
        HistoryBound(t, adm, popped + queue);
        return false, popped + queue;
      }
      PairsInRange(t, adm);
      FewerToAdmit(t, before, adm);
      ExtendsTransitive(start, before, adm);
    }
    FinishedIsFunctional(t, co, adm);
    ForwardAdmits(t, co, adm, [], queue);
    HistoryBound(t, adm, popped + queue);
    return true, popped + queue;
  }
}
