/** What the transducer built by the subset construction computes. */
module SubsetMeaning {
  import opened Words
  import opened Expanded
  import opened SparseSsfst
  import opened Subsets

  // ---------- the state reached and the paths of the input ----------

  /** What the walk on u says about the paths of the input transducer that read u. */
  ghost predicate Tracks(t: FST, m: Machine, states: seq<BigState>, u: Word) {
    match Walk(m, 0, u)
    case None => forall v: Word, q: nat {:trigger Reachable(t, u, v, q)} :: !Reachable(t, u, v, q)
    case Some((o, j)) => j < |states| && Reads(t, u, o, states[j]) && (u != [] ==> Tight(states[j]) && states[j] != {})
  }

  lemma {:induction false} WalkSnoc(m: Machine, i: nat, u: Word, s: Symbol)
    ensures Walk(m, i, u + [s]) == match Walk(m, i, u)
      case None => None
      case Some((o, j)) => if (j, s) in m.trans then Some((o + m.trans[(j, s)].0, m.trans[(j, s)].1)) else None
    decreases u
  {
    if u == [] {
      assert (u + [s])[1..] == [];
      if (i, s) in m.trans {
        var w := m.trans[(i, s)].0;
        assert w + [] == w == [] + w;
      }
    } else {
      assert (u + [s])[1..] == u[1..] + [s];
      if (i, u[0]) in m.trans {
        var (w, k) := m.trans[(i, u[0])];
        WalkSnoc(m, k, u[1..], s);
        match Walk(m, k, u[1..])
        case None =>
        case Some((o, j)) =>
          if (j, s) in m.trans {
            assert w + (o + m.trans[(j, s)].0) == (w + o) + m.trans[(j, s)].0;
          }
      }
    }
  }

  /**
   * After reading u with output o, the subset reached holds exactly the pairs (q, d) for which o + d is the
   * output of some path on u to q; and the delays of a subset reached by a nonempty word share no prefix.
   */
  lemma {:induction false} WalkTracks(t: FST, m: Machine, states: seq<BigState>, strict: bool, bound: nat, u: Word)
    requires Built(t, m, states, strict, bound)
    ensures Tracks(t, m, states, u)
    decreases |u|
  {
    hide Reads, Reachable, Tight, Built, RowDone, StepOk, Leads;
    if u == [] {
      ReadsStart(t);
      BuiltStart(t, m, states, strict, bound);
    } else {
      var front, s := u[..|u| - 1], u[|u| - 1];
      assert u == front + [s];
      WalkTracks(t, m, states, strict, bound, front);
      WalkSnoc(m, 0, front, s);
      match Walk(m, 0, front)
      case None =>
        forall v: Word, q: nat ensures !Reachable(t, u, v, q) {
          NoPathOn(t, front, s, v, q);
        }
      case Some((o, j)) =>
        BuiltRow(t, m, states, strict, bound, j, s);
        if (j, s) in m.trans {
          var (w, k) := m.trans[(j, s)];
          ReadsStep(t, front, o, states[j], s, w, states[k]);
          StepFacts(t, states[j], s, w, states[k]);
        } else {
          forall v: Word, q: nat ensures !Reachable(t, u, v, q) {
            DeadStep(t, front, o, states[j], s, v, q);
          }
        }
    }
  }

  lemma BuiltStart(t: FST, m: Machine, states: seq<BigState>, strict: bool, bound: nat)
    requires Built(t, m, states, strict, bound)
    ensures |states| >= 1 && states[0] == InitialState(t)
  {
  }

  lemma BuiltRow(t: FST, m: Machine, states: seq<BigState>, strict: bool, bound: nat, i: nat, s: Symbol)
    requires Built(t, m, states, strict, bound) && i < |states|
    ensures Moves(t, m, states, i, s)
  {
    assert RowDone(t, m, states, i);
  }

  lemma StepFacts(t: FST, b: BigState, s: Symbol, w: Word, b': BigState)
    requires StepOk(t, b, s, w, b')
    ensures Tight(b') && b' != {}
  {
  }

  lemma NoPathOn(t: FST, u: Word, s: Symbol, v: Word, q: nat)
    requires forall v: Word, q: nat {:trigger Reachable(t, u, v, q)} :: !Reachable(t, u, v, q)
    ensures !Reachable(t, u + [s], v, q)
  {
    if Reachable(t, u + [s], v, q) {
      var p :| p in t.initial && Run(t, p, u + [s], v, q);
      var a, front := LastArcOfRun(t, p, u, s, v, q);
      if Reachable(t, u, front, a.from) {
        assert false;
      }
    }
  }

  // ---------- accepting paths ----------

  lemma PathRelReachable(t: FST, u: Word, v: Word)
    ensures PathRel(t, u, v) <==> exists q :: q in t.final && Reachable(t, u, v, q)
  {
    hide Run, Accepts;
    if PathRel(t, u, v) {
      var s :| s in t.initial && Accepts(t, s, u, v);
      var q := AcceptsRun(t, s, u, v);
      assert Reachable(t, u, v, q);
    }
    if q :| q in t.final && Reachable(t, u, v, q) {
      var s :| s in t.initial && Run(t, s, u, v, q);
      AcceptsEmpty(t, q, []);
      RunThenAccepts(t, s, u, v, q, [], []);
      assert u + [] == u && v + [] == v;
    }
  }

  lemma {:induction false} AcceptsRun(t: FST, s: nat, u: Word, v: Word) returns (q: nat)
    requires Accepts(t, s, u, v)
    ensures q in t.final && Run(t, s, u, v, q)
    decreases u
  {
    hide Run, Accepts;
    if u == [] {
      AcceptsEmpty(t, s, v);
      RunEmpty(t, s, v, s);
      q := s;
    } else {
      var a, rest := FirstArc(t, s, u, v);
      q := AcceptsRun(t, a.to, u[1..], rest);
      RunStep(t, a, u[1..], rest, q);
      assert [a.sym] + u[1..] == u;
    }
  }

  lemma AcceptedIsFinal(t: FST, u: Word, o: Word, b: BigState, v: Word)
    requires Reads(t, u, o, b)
    ensures PathRel(t, u, v) <==> o <= v && exists x :: x in b && IsFinalIn(t, x) && x.1 == v[|o|..]
  {
    hide Reachable;
    PathRelReachable(t, u, v);
    if PathRel(t, u, v) {
      var q :| q in t.final && Reachable(t, u, v, q);
      assert IsFinalIn(t, (q, v[|o|..]));
    }
    if o <= v {
      if x :| x in b && IsFinalIn(t, x) && x.1 == v[|o|..] {
        assert (x.0, v[|o|..]) in b;
        assert Reachable(t, u, v, x.0);
      }
    }
  }

  // ---------- which of the outputs is produced ----------

  /** A word whose walk ends away from the initial subset is answered by one of its outputs, or rejected if it has none. */
  ghost predicate Picks(t: FST, answer: Answer, u: Word) {
    match answer
    case Accept(v) => PathRel(t, u, v)
    case Reject => forall v: Word {:trigger PathRel(t, u, v)} :: !PathRel(t, u, v)
    case Throw => false
  }

  predicate AtStart(m: Machine, u: Word) {
    Walk(m, 0, u).Some? && Walk(m, 0, u).value.1 == 0
  }

  /** For any input transducer, functional or not, the result picks an output of u whenever there is one. */
  lemma AwayFromStart(t: FST, m: Machine, states: seq<BigState>, strict: bool, bound: nat, u: Word)
    requires Built(t, m, states, strict, bound) && !AtStart(m, u)
    ensures Picks(t, AnswerTo(m, u), u)
  {
    hide Reads, Reachable, Tight, Built, PathRel;
    WalkTracks(t, m, states, strict, bound, u);
    match Walk(m, 0, u)
    case None =>
      forall v: Word ensures !PathRel(t, u, v) {
        PathRelReachable(t, u, v);
      }
    case Some((o, j)) =>
      BuiltEnd(t, m, states, strict, bound, j);
      var b := states[j];
      if j in m.finals {
        var x :| x in b && IsFinalIn(t, x) && x.1 == m.output[j];
        var v := o + m.output[j];
        assert v[|o|..] == m.output[j];
        AcceptedIsFinal(t, u, o, b, v);
      } else {
        forall v: Word ensures !PathRel(t, u, v) {
          AcceptedIsFinal(t, u, o, b, v);
        }
      }
  }

  lemma BuiltEnd(t: FST, m: Machine, states: seq<BigState>, strict: bool, bound: nat, j: nat)
    requires Built(t, m, states, strict, bound) && j < |states|
    ensures EndRight(t, m, j, states[j], strict)
  {
  }

  /** A word that leads back to the initial subset has the one output o, if some initial state is final. */
  lemma BackAtStart(t: FST, m: Machine, states: seq<BigState>, strict: bool, bound: nat, u: Word)
    requires Built(t, m, states, strict, bound) && AtStart(m, u)
    ensures forall v: Word {:trigger PathRel(t, u, v)} :: PathRel(t, u, v) <==> v == Walk(m, 0, u).value.0 && !(t.initial !! t.final)
  {
    hide Reads, Reachable, Tight, Built, PathRel;
    WalkTracks(t, m, states, strict, bound, u);
    BuiltStart(t, m, states, strict, bound);
    var o := Walk(m, 0, u).value.0;
    forall v: Word ensures PathRel(t, u, v) <==> v == o && !(t.initial !! t.final) {
      AcceptedIsFinal(t, u, o, InitialState(t), v);
      if v == o && !(t.initial !! t.final) {
        var q :| q in t.initial && q in t.final;
        assert o <= v && v[|o|..] == [];
        assert (q, v[|o|..]) in InitialState(t) && IsFinalIn(t, (q, v[|o|..]));
      }
      if o <= v {
        if x :| x in InitialState(t) && IsFinalIn(t, x) && x.1 == v[|o|..] {
          assert v == o + v[|o|..];
        }
      }
    }
  }

  // ---------- the function computed ----------

  /** The result accepts u with output v exactly when (u, v) is in the relation, and never throws. */
  ghost predicate SameFunction(t: FST, m: Machine) {
    forall u: Word {:trigger AnswerTo(m, u)} :: SameOn(t, m, u)
  }

  ghost predicate SameOn(t: FST, m: Machine, u: Word) {
    AnswerTo(m, u) != Throw && forall v: Word {:trigger Rel(t, u, v)} :: AnswerTo(m, u) == Accept(v) <==> Rel(t, u, v)
  }

  /** Some nonempty word leads every path back to the initial states with one output, and to all of them. */
  ghost predicate Reenters(t: FST) {
    exists u: Word, o: Word {:trigger Reads(t, u, o, InitialState(t))} :: u != [] && Reads(t, u, o, InitialState(t))
  }

  /**
   * The condition on the input: an initial state is final exactly when the empty word has an output, and if
   * that output is not empty, the initial subset is not entered again.
   */
  ghost predicate StartIsClean(t: FST) {
    && (!(t.initial !! t.final) <==> t.fEps != [])
    && (t.fEps != [] && t.fEps[0] != [] ==> !Reenters(t))
  }

  /** A functional transducer is subsequentialized faithfully exactly when its start is clean. */
  lemma SameFunctionIff(t: FST, m: Machine, states: seq<BigState>, strict: bool, bound: nat)
    requires Built(t, m, states, strict, bound) && Functional(t)
    ensures SameFunction(t, m) <==> StartIsClean(t)
  {
    hide Reads, Built, PathRel, Functional, SameOn, Walk;
    if StartIsClean(t) {
      forall u: Word ensures SameOn(t, m, u) {
        if u == [] {
          SameOnEmpty(t, m, states, strict, bound);
        } else if AtStart(m, u) {
          NoReentry(t, m, states, strict, bound, u);
          SameAtStart(t, m, states, strict, bound, u);
        } else {
          SameAway(t, m, states, strict, bound, u);
        }
      }
    }
    if SameFunction(t, m) {
      var e: Word := [];
      assert SameOn(t, m, e) by {
        var a := AnswerTo(m, e);
      }
      SameOnEmpty(t, m, states, strict, bound);
      if t.fEps != [] && t.fEps[0] != [] && Reenters(t) {
        var u := ReentryIsStart(t, m, states, strict, bound);
        assert SameOn(t, m, u) by {
          var a := AnswerTo(m, u);
        }
        SameAtStart(t, m, states, strict, bound, u);
      }
    }
  }

  lemma SameOnEmpty(t: FST, m: Machine, states: seq<BigState>, strict: bool, bound: nat)
    requires Built(t, m, states, strict, bound) && Functional(t)
    ensures SameOn(t, m, []) <==> (!(t.initial !! t.final) <==> t.fEps != [])
  {
    hide Built, PathRel;
    var e: Word := [];
    BuiltStart(t, m, states, strict, bound);
    BuiltEnd(t, m, states, strict, bound, 0);
    if t.fEps != [] {
      var first := t.fEps[0];
      assert e + first == first;
      assert Rel(t, e, first);
      forall v: Word ensures Rel(t, e, v) <==> v == first {
        if Rel(t, e, v) {
          assert v == first;
        }
      }
    }
  }

  lemma SameAway(t: FST, m: Machine, states: seq<BigState>, strict: bool, bound: nat, u: Word)
    requires Built(t, m, states, strict, bound) && Functional(t) && u != [] && !AtStart(m, u)
    ensures SameOn(t, m, u)
  {
    hide Built, PathRel;
    AwayFromStart(t, m, states, strict, bound, u);
    match AnswerTo(m, u)
    case Accept(v) =>
      assert Rel(t, u, v);
    case Reject =>
  }

  lemma SameAtStart(t: FST, m: Machine, states: seq<BigState>, strict: bool, bound: nat, u: Word)
    requires Built(t, m, states, strict, bound) && u != [] && AtStart(m, u)
    requires !(t.initial !! t.final) <==> t.fEps != []
    ensures SameOn(t, m, u) <==> (t.fEps == [] || t.fEps[0] == [])
  {
    hide Built, PathRel;
    BackAtStart(t, m, states, strict, bound, u);
    BuiltStart(t, m, states, strict, bound);
    BuiltEnd(t, m, states, strict, bound, 0);
    var o := Walk(m, 0, u).value.0;
    if t.fEps != [] {
      assert AnswerTo(m, u) == Accept(o + t.fEps[0]);
      assert Rel(t, u, o);
      if t.fEps[0] == [] {
        assert o + t.fEps[0] == o;
      } else {
        assert o + t.fEps[0] != o by {
          assert |o + t.fEps[0]| > |o|;
        }
      }
    }
  }

  lemma NoReentry(t: FST, m: Machine, states: seq<BigState>, strict: bool, bound: nat, u: Word)
    requires Built(t, m, states, strict, bound) && u != [] && AtStart(m, u)
    ensures Reenters(t)
  {
    hide Built, Reads, Tight, Walk;
    WalkTracks(t, m, states, strict, bound, u);
    BuiltStart(t, m, states, strict, bound);
  }

  lemma ReadsUnique(t: FST, u: Word, o: Word, b: BigState, o': Word, b': BigState)
    requires Reads(t, u, o, b) && Tight(b) && b != {}
    requires Reads(t, u, o', b') && Tight(b') && b' != {}
    ensures o == o' && b == b'
  {
    hide Reachable, Tight;
    ReadsGcp(t, u, o, b);
    ReadsGcp(t, u, o', b');
    assert BelowOutputs(t, u, o) && BelowOutputs(t, u, o');
    forall x ensures x in b <==> x in b' {
      assert (o + x.1)[|o|..] == x.1;
      assert Reachable(t, u, o + x.1, x.0) <==> x in b;
      assert Reachable(t, u, o + x.1, x.0) <==> x in b';
    }
  }

  lemma StartTight(t: FST)
    requires t.initial != {}
    ensures Tight(InitialState(t)) && InitialState(t) != {}
  {
    var q :| q in t.initial;
    assert (q, []) in InitialState(t);
  }

  lemma ReentryIsStart(t: FST, m: Machine, states: seq<BigState>, strict: bool, bound: nat) returns (u: Word)
    requires Built(t, m, states, strict, bound) && Reenters(t) && t.initial != {}
    ensures u != [] && AtStart(m, u)
  {
    hide Tight, Walk, RowDone, StatesOk, EndsRight;
    var o: Word;
    u, o :| u != [] && Reads(t, u, o, InitialState(t));
    WalkTracks(t, m, states, strict, bound, u);
    StartTight(t);
    BuiltStart(t, m, states, strict, bound);
    var x :| x in InitialState(t);
    ReadsOwing(t, u, o, InitialState(t), x);
    match Walk(m, 0, u)
    case Some((o', j)) =>
      ReadsUnique(t, u, o, InitialState(t), o', states[j]);
  }

  // ---------- consequences ----------

  /** A start that no arc enters is clean as soon as the empty word is treated consistently. */
  lemma UnenteredStartIsClean(t: FST)
    requires forall a :: a in t.arcs ==> a.to !in t.initial
    requires !(t.initial !! t.final) <==> t.fEps != []
    ensures StartIsClean(t)
  {
    hide Run;
    if t.fEps != [] && Reenters(t) {
      var u: Word, o: Word :| u != [] && Reads(t, u, o, InitialState(t));
      var q :| q in t.initial && q in t.final;
      assert (q, []) in InitialState(t);
      ReadsOwing(t, u, o, InitialState(t), (q, []));
      var p :| p in t.initial && Run(t, p, u, o + [], q);
      assert u == u[..|u| - 1] + [u[|u| - 1]];
      var a, front := LastArcOfRun(t, p, u[..|u| - 1], u[|u| - 1], o + [], q);
      assert false;
    }
  }

  /** The construction never reports a conflict on a functional transducer. */
  lemma ConflictIsReal(t: FST, strict: bool)
    requires Conflict(t, strict)
    ensures !Functional(t)
  {
    hide Reachable, PathRel;
    var u, v, w, p, q :| u != [] && v != w && p in t.final && q in t.final && Reachable(t, u, v, p) && Reachable(t, u, w, q);
    PathRelReachable(t, u, v);
    PathRelReachable(t, u, w);
    assert Rel(t, u, v) && Rel(t, u, w);
  }

  ghost predicate OneOutput(t: FST, u: Word) {
    forall v: Word, w: Word {:trigger PathRel(t, u, v), PathRel(t, u, w)} :: PathRel(t, u, v) && PathRel(t, u, w) ==> v == w
  }

  /** When conflicts are not tolerated and the construction finishes, every nonempty word has at most one output. */
  lemma StrictDecides(t: FST, m: Machine, states: seq<BigState>, bound: nat, u: Word)
    requires Built(t, m, states, true, bound) && u != []
    ensures OneOutput(t, u)
  {
    hide Reads, Reachable, Tight, Built, PathRel;
    if AtStart(m, u) {
      BackAtStart(t, m, states, true, bound, u);
    } else {
      WalkTracks(t, m, states, true, bound, u);
      match Walk(m, 0, u)
      case None =>
        forall v: Word ensures !PathRel(t, u, v) {
          PathRelReachable(t, u, v);
        }
      case Some((o, j)) =>
        BuiltEnd(t, m, states, true, bound, j);
        forall v: Word, w: Word | PathRel(t, u, v) && PathRel(t, u, w) ensures v == w {
          AcceptedIsFinal(t, u, o, states[j], v);
          AcceptedIsFinal(t, u, o, states[j], w);
          assert v == o + v[|o|..] && w == o + w[|o|..];
        }
    }
  }

  /** A finished construction shows that no delay ever exceeds the bound. */
  lemma DoneMeansBounded(t: FST, m: Machine, states: seq<BigState>, strict: bool, bound: nat)
    requires Built(t, m, states, strict, bound)
    ensures !SpreadTooWide(t, bound)
  {
    hide Reads, Reachable, Tight, Built, Walk, LcpOfOutputs;
    if SpreadTooWide(t, bound) {
      var u, o, v, q :| u != [] && LcpOfOutputs(t, u, o) && Reachable(t, u, v, q) && |v| > |o| + bound;
      WalkTracks(t, m, states, strict, bound, u);
      match Walk(m, 0, u)
      case None =>
        assert false;
      case Some((o', j)) =>
        ReadsGcp(t, u, o', states[j]);
        LcpUnique(t, u, o, o');
        ReadsBounded(t, m, states, strict, bound, u, o, j, v, q);
    }
  }

  lemma LcpUnique(t: FST, u: Word, o: Word, o': Word)
    requires LcpOfOutputs(t, u, o) && LcpOfOutputs(t, u, o')
    ensures o == o'
  {
    hide Reachable;
    assert BelowOutputs(t, u, o) && BelowOutputs(t, u, o');
  }

  lemma ReadsBounded(t: FST, m: Machine, states: seq<BigState>, strict: bool, bound: nat, u: Word, o: Word, j: nat, v: Word, q: nat)
    requires Built(t, m, states, strict, bound) && j < |states| && Reads(t, u, o, states[j]) && Reachable(t, u, v, q)
    ensures |v| <= |o| + bound
  {
    hide Reachable, EndsRight, RowDone;
    assert j >= 1 ==> StateOk(t, j, states[j], bound);
    assert (q, v[|o|..]) in states[j];
  }

  // ---------- the side condition is needed ----------

  /** Initial and final state 0; reading 0 returns to it with output 1, and the empty word is mapped to 2. */
  const REENTERED := FST(1, [Arc(0, 0, [1], 0)], {0}, {0}, [[2]])

  /** The output of the empty word is emitted again after every return: the word 0 gets 1 2 instead of 1. */
  lemma ReenteredStartRepeatsOutput(m: Machine, states: seq<BigState>, strict: bool, bound: nat)
    requires Built(REENTERED, m, states, strict, bound)
    ensures Rel(REENTERED, [0], [1]) && AnswerTo(m, [0]) == Accept([1, 2])
  {
    hide Built, Reads, Tight, Walk;
    var t := REENTERED;
    var a := t.arcs[0];
    var e: Word := [];
    assert a in t.arcs;
    AcceptsEmpty(t, 0, e);
    AcceptsStep(t, a, e, e);
    assert [a.sym] + e == [0] && a.out + e == [1];
    assert PathRel(t, [0], [1]);
    assert Reads(t, [0], [1], InitialState(t)) by {
      ReadsStart(t);
      StartTight(t);
      OneStepBack(t, a);
    }
    var u := [0];
    WalkTracks(t, m, states, strict, bound, u);
    ReadsOwing(t, u, [1], InitialState(t), (0, []));
    StartTight(t);
    BuiltStart(t, m, states, strict, bound);
    BuiltEnd(t, m, states, strict, bound, 0);
    match Walk(m, 0, u)
    case Some((o, j)) =>
      ReadsUnique(t, u, [1], InitialState(t), o, states[j]);
      BuiltDistinct(t, m, states, strict, bound, j);
      assert [1] + [2] == [1, 2];
  }

  lemma BuiltDistinct(t: FST, m: Machine, states: seq<BigState>, strict: bool, bound: nat, j: nat)
    requires Built(t, m, states, strict, bound) && j < |states| && states[j] == InitialState(t)
    ensures j == 0
  {
    hide EndsRight, RowDone;
  }

  lemma OneStepBack(t: FST, a: Arc)
    requires t == REENTERED && a == t.arcs[0]
    requires Reads(t, [], [], InitialState(t)) && Tight(InitialState(t)) && InitialState(t) != {}
    ensures Reads(t, [0], [1], InitialState(t))
  {
    hide Reads, Tight;
    var b := InitialState(t);
    var e: Word := [];
    assert b == {(0, e)};
    forall x | Leads(t, b, 0, x) ensures x == (0, [1]) {
      var p, c :| Via(t, b, 0, x, p, c);
      assert c == a && p == (0, e) && e + a.out == [1];
    }
    assert Via(t, b, 0, (0, [1]), (0, e), a) by {
      assert a in t.arcs && e + a.out == [1];
    }
    assert StepOk(t, b, 0, [1], b) by {
      forall x | Leads(t, b, 0, x) ensures [1] <= x.1 && (x.0, x.1[1..]) in b {
        assert x.1[1..] == e;
      }
      forall y | y in b ensures Leads(t, b, 0, (y.0, [1] + y.1)) {
        assert y == (0, e) && [1] + e == [1];
      }
    }
    ReadsStep(t, e, e, b, 0, [1], b);
    assert e + [0] == [0] && e + [1] == [1];
  }
}
