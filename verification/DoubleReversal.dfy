/** What pseudo-determinization, reversal and their composition do to the label language. */
module DoubleReversal {
  import opened Counting
  import opened Words
  import opened Expanded
  import opened LabelAutomata
  import opened Determinize

  // ---------- runs of the subset automaton ----------

  lemma SubsetArc(t: FST, d: FST, sets: seq<set<nat>>, a: Arc)
    requires Determinized(t, d, sets) && a in d.arcs
    ensures ArcRight(t, a, sets)
  {
  }

  lemma SubsetEdge(t: FST, d: FST, sets: seq<set<nat>>, i: nat, l: Label) returns (a: Arc)
    requires Determinized(t, d, sets) && i < |sets| && Post(t, sets[i], l) != {}
    ensures ArcOn(d, a, i, l)
  {
    assert HasArc(d, i, l);
    a :| ArcOn(d, a, i, l);
  }

  /** A run of the subset automaton ends in the set of all states that the label word leads to. */
  lemma {:induction false} RunIsPost(t: FST, d: FST, sets: seq<set<nat>>, i: nat, w: seq<Label>, j: nat)
    requires Determinized(t, d, sets) && i < |sets| && LabelRun(d, i, w, j)
    ensures j < |sets| && sets[j] == PostWord(t, sets[i], w)
    decreases w
  {
    hide Determinized, LabelRun, Post;
    if w == [] {
      LabelRunEmpty(d, i, j);
    } else {
      var a := FirstLabel(d, i, w, j);
      SubsetArc(t, d, sets, a);
      RunIsPost(t, d, sets, a.to, w[1..], j);
    }
  }

  lemma {:induction false} PostIsRun(t: FST, d: FST, sets: seq<set<nat>>, i: nat, w: seq<Label>) returns (j: nat)
    requires Determinized(t, d, sets) && i < |sets| && PostWord(t, sets[i], w) != {}
    ensures LabelRun(d, i, w, j)
    decreases w
  {
    hide Determinized, LabelRun, Post;
    if w == [] {
      LabelRunEmpty(d, i, i);
      j := i;
    } else {
      var b := Post(t, sets[i], w[0]);
      if b == {} {
        PostWordOfNothing(t, w[1..]);
        assert false;
      }
      var a := SubsetEdge(t, d, sets, i, w[0]);
      SubsetArc(t, d, sets, a);
      j := PostIsRun(t, d, sets, a.to, w[1..]);
      LabelStep(d, a, w[1..], j);
      assert [w[0]] + w[1..] == w;
    }
  }

  lemma {:induction false} PostWordOfNothing(t: FST, w: seq<Label>)
    ensures PostWord(t, {}, w) == {}
    decreases w
  {
    if w != [] {
      PostWordOfNothing(t, w[1..]);
      assert Post(t, {}, w[0]) == {};
    }
  }

  lemma SubsetFinal(t: FST, d: FST, sets: seq<set<nat>>, i: nat)
    requires Determinized(t, d, sets) && i < |sets|
    ensures i in d.final <==> Hits(sets[i], t.final)
  {
  }

  /** From subset i exactly the label words are accepted that lead some state of it to a final state. */
  lemma SubsetAccepts(t: FST, d: FST, sets: seq<set<nat>>, i: nat, w: seq<Label>)
    requires Determinized(t, d, sets) && i < |sets|
    ensures AcceptsLabels(d, i, w) <==> exists p {:trigger AcceptsLabels(t, p, w)} :: p in sets[i] && AcceptsLabels(t, p, w)
  {
    hide Determinized, LabelRun, PostWord;
    if AcceptsLabels(d, i, w) {
      var j :| j in d.final && LabelRun(d, i, w, j);
      RunIsPost(t, d, sets, i, w, j);
      SubsetFinal(t, d, sets, j);
      var f :| f in sets[j] && f in t.final;
      PostWordRuns(t, sets[i], w, f);
      var p :| p in sets[i] && LabelRun(t, p, w, f);
      assert AcceptsLabels(t, p, w);
    }
    if p :| p in sets[i] && AcceptsLabels(t, p, w) {
      var f :| f in t.final && LabelRun(t, p, w, f);
      PostWordRuns(t, sets[i], w, f);
      assert LabelRun(t, p, w, f);
      assert f in PostWord(t, sets[i], w);
      var j := PostIsRun(t, d, sets, i, w);
      RunIsPost(t, d, sets, i, w, j);
      SubsetFinal(t, d, sets, j);
      assert j in d.final;
    }
  }

  lemma SubsetStart(t: FST, d: FST, sets: seq<set<nat>>)
    requires Determinized(t, d, sets)
    ensures |sets| >= 1 && sets[0] == t.initial && d.initial == {0} && d.n == |sets|
    ensures forall v :: v in d.fEps <==> v in t.fEps
  {
  }

  lemma DeterminizedLanguage(t: FST, d: FST, sets: seq<set<nat>>)
    requires Determinized(t, d, sets)
    ensures SameLabelLanguage(t, d) && forall v :: v in d.fEps <==> v in t.fEps
  {
    hide Determinized, AcceptsLabels;
    SubsetStart(t, d, sets);
    forall w: seq<Label> ensures LabelLanguage(t, w) <==> LabelLanguage(d, w) {
      SubsetAccepts(t, d, sets, 0, w);
      if LabelLanguage(t, w) {
        assert 0 in d.initial;
      }
    }
  }

  lemma DeterminizedIsDeterministic(t: FST, d: FST, sets: seq<set<nat>>)
    requires Determinized(t, d, sets)
    ensures PseudoDeterministic(d)
  {
    hide HasArc, Hits, SubsetOk, Post;
    forall a, b | a in d.arcs && b in d.arcs && a.from == b.from && LabelOf(a) == LabelOf(b) ensures a.to == b.to {
      assert ArcRight(t, a, sets) && ArcRight(t, b, sets);
    }
  }

  /** States are numbered below n and each can be reached from an initial state. */
  ghost predicate Accessible(t: FST) {
    && (forall a :: a in t.arcs ==> a.from < t.n && a.to < t.n)
    && (forall q :: q in t.final ==> q < t.n)
    && forall q: nat {:trigger IsReached(t, q)} :: q < t.n ==> IsReached(t, q)
  }

  lemma DeterminizedIsAccessible(t: FST, d: FST, sets: seq<set<nat>>)
    requires Determinized(t, d, sets)
    ensures Accessible(d)
  {
    hide HasArc, Hits, SubsetOk, PostWord, Post, LabelRun;
    forall q: nat | q < d.n ensures IsReached(d, q) {
      var w := ReachedBy(t, d, sets, q);
      assert 0 in d.initial;
    }
    forall a | a in d.arcs ensures a.from < d.n && a.to < d.n {
      assert ArcRight(t, a, sets);
    }
  }

  lemma ReachedBy(t: FST, d: FST, sets: seq<set<nat>>, i: nat) returns (w: seq<Label>)
    requires Determinized(t, d, sets) && i < |sets|
    ensures LabelRun(d, 0, w, i)
  {
    hide HasArc, Hits, Post, LabelRun, PostWord, ArcRight;
    assert SubsetOk(t, i, sets[i]);
    if i == 0 {
      w := [];
      LabelRunEmpty(d, 0, 0);
    } else {
      w :| sets[i] == PostWord(t, t.initial, w);
      var j := PostIsRun(t, d, sets, 0, w);
      RunIsPost(t, d, sets, 0, w, j);
      SameSubset(t, d, sets, i, j);
    }
  }

  lemma SameSubset(t: FST, d: FST, sets: seq<set<nat>>, i: nat, j: nat)
    requires Determinized(t, d, sets) && i < |sets| && j < |sets| && sets[i] == sets[j]
    ensures i == j
  {
  }

  // ---------- reversal ----------

  function Flip(a: Arc): Arc {
    Arc(a.to, a.sym, a.out, a.from)
  }

  ghost predicate Reversed(t: FST, r: FST) {
    && r.n == t.n && r.initial == t.final && r.final == t.initial
    && |r.arcs| == |t.arcs| && (forall i :: 0 <= i < |t.arcs| ==> r.arcs[i] == Flip(t.arcs[i]))
    && (forall v :: v in r.fEps <==> v in t.fEps)
  }

  method ReverseFst(t: FST) returns (rev: ExpandedFst)
    ensures fresh(rev) && Reversed(t, rev.Value())
  {
    rev := new ExpandedFst();
    rev.n := t.n;
    var todo := t.initial;
    while todo != {}
      invariant todo <= t.initial && rev.Value() == FST(t.n, [], {}, t.initial - todo, [])
    {
      var q :| q in todo;
      todo := todo - {q};
      rev.AddFinal(q);
    }
    todo := t.final;
    while todo != {}
      invariant todo <= t.final && rev.Value() == FST(t.n, [], t.final - todo, t.initial, [])
    {
      var q :| q in todo;
      todo := todo - {q};
      rev.AddInitial(q);
    }
    for i := 0 to |t.arcs|
      invariant rev.Value() == FST(t.n, rev.arcs, t.final, t.initial, [])
      invariant |rev.arcs| == i && forall j :: 0 <= j < i ==> rev.arcs[j] == Flip(t.arcs[j])
    {
      rev.AddTransition(t.arcs[i].to, LabelOf(t.arcs[i]), t.arcs[i].from);
    }
    CopyFEps(rev, t.fEps);
  }

  function Backwards(w: seq<Label>): (r: seq<Label>)
    ensures |r| == |w|
  {
    if w == [] then [] else Backwards(w[1..]) + [w[0]]
  }

  lemma {:induction false} BackwardsSnoc(w: seq<Label>, l: Label)
    ensures Backwards(w + [l]) == [l] + Backwards(w)
    decreases w
  {
    if w == [] {
      assert (w + [l])[1..] == [];
    } else {
      assert (w + [l])[1..] == w[1..] + [l];
      BackwardsSnoc(w[1..], l);
    }
  }

  lemma {:induction false} BackwardsTwice(w: seq<Label>)
    ensures Backwards(Backwards(w)) == w
    decreases w
  {
    if w != [] {
      BackwardsTwice(w[1..]);
      BackwardsSnoc(Backwards(w[1..]), w[0]);
    }
  }

  lemma FlipIn(t: FST, r: FST, a: Arc)
    requires Reversed(t, r) && a in t.arcs
    ensures Flip(a) in r.arcs
  {
    var i :| 0 <= i < |t.arcs| && t.arcs[i] == a;
    assert r.arcs[i] == Flip(a);
  }

  /** A run read backwards is a run of the reversal. */
  lemma {:induction false} RunFlips(t: FST, r: FST, p: nat, w: seq<Label>, q: nat)
    requires Reversed(t, r) && LabelRun(t, p, w, q)
    ensures LabelRun(r, q, Backwards(w), p)
    decreases w
  {
    hide LabelRun, Reversed;
    if w == [] {
      LabelRunEmpty(t, p, q);
      LabelRunEmpty(r, q, p);
    } else {
      var a := FirstLabel(t, p, w, q);
      RunFlips(t, r, a.to, w[1..], q);
      FlipIn(t, r, a);
      LabelRunThen(r, q, Backwards(w[1..]), Flip(a));
    }
  }

  lemma ReversedTwice(t: FST, r: FST)
    requires Reversed(t, r)
    ensures Reversed(r, t)
  {
  }

  lemma RunFlipsIff(t: FST, r: FST, p: nat, w: seq<Label>, q: nat)
    requires Reversed(t, r)
    ensures LabelRun(t, p, w, q) <==> LabelRun(r, q, Backwards(w), p)
  {
    hide LabelRun, Reversed;
    if LabelRun(t, p, w, q) {
      RunFlips(t, r, p, w, q);
    }
    if LabelRun(r, q, Backwards(w), p) {
      ReversedTwice(t, r);
      RunFlips(r, t, q, Backwards(w), p);
      BackwardsTwice(w);
    }
  }

  lemma LanguageRun(t: FST, w: seq<Label>)
    ensures LabelLanguage(t, w) <==> exists s, f {:trigger LabelRun(t, s, w, f)} :: s in t.initial && f in t.final && LabelRun(t, s, w, f)
  {
    hide LabelRun;
    if s, f :| s in t.initial && f in t.final && LabelRun(t, s, w, f) {
      assert AcceptsLabels(t, s, w);
    }
    if LabelLanguage(t, w) {
      var s :| s in t.initial && AcceptsLabels(t, s, w);
      var f := AcceptedRun(t, s, w);
      assert LabelRun(t, s, w, f);
    }
  }

  /** The reversal has the words of the label language backwards. */
  lemma ReversedLanguage(t: FST, r: FST, w: seq<Label>)
    requires Reversed(t, r)
    ensures LabelLanguage(t, w) <==> LabelLanguage(r, Backwards(w))
  {
    hide LabelRun, LabelLanguage;
    LanguageRun(t, w);
    LanguageRun(r, Backwards(w));
    if LabelLanguage(t, w) {
      var s, f :| s in t.initial && f in t.final && LabelRun(t, s, w, f);
      RunFlipsIff(t, r, s, w, f);
    }
    if LabelLanguage(r, Backwards(w)) {
      var f, s :| f in r.initial && s in r.final && LabelRun(r, f, Backwards(w), s);
      RunFlipsIff(t, r, s, w, f);
    }
  }

  // ---------- minimality ----------

  ghost predicate Distinguished(t: FST, i: nat, j: nat) {
    exists w {:trigger AcceptsLabels(t, i, w)} {:trigger AcceptsLabels(t, j, w)} :: AcceptsLabels(t, i, w) != AcceptsLabels(t, j, w)
  }

  ghost predicate AllDistinguished(t: FST) {
    forall i: nat, j: nat {:trigger Distinguished(t, i, j)} :: i < j < t.n ==> Distinguished(t, i, j)
  }

  lemma {:induction false} DeterministicRun(t: FST, p: nat, w: seq<Label>, q: nat, q': nat)
    requires PseudoDeterministic(t) && LabelRun(t, p, w, q) && LabelRun(t, p, w, q')
    ensures q == q'
    decreases w
  {
    hide LabelRun;
    if w == [] {
      LabelRunEmpty(t, p, q);
      LabelRunEmpty(t, p, q');
    } else {
      var a := FirstLabel(t, p, w, q);
      var b := FirstLabel(t, p, w, q');
      DeterministicRun(t, a.to, w[1..], q, q');
    }
  }

  /** Where two subsets of reversed states differ, a path to the state in one of them tells them apart. */
  lemma WordForState(a: FST, r: FST, d: FST, sets: seq<set<nat>>, i: nat, j: nat, q: nat)
    requires PseudoDeterministic(a) && Accessible(a) && Reversed(a, r) && Determinized(r, d, sets)
    requires i < |sets| && j < |sets| && q in sets[i] && q !in sets[j] && q < a.n
    ensures Distinguished(d, i, j)
  {
    hide LabelRun, Reversed, Determinized, AcceptsLabels;
    assert IsReached(a, q);
    var s, w :| s in a.initial && LabelRun(a, s, w, q);
    var x := Backwards(w);
    RunFlipsIff(a, r, s, w, q);
    ReversedEnds(a, r);
    RunAccepts(r, q, x, s);
    SubsetAccepts(r, d, sets, i, x);
    SubsetAccepts(r, d, sets, j, x);
    if AcceptsLabels(d, j, x) {
      var q' :| q' in sets[j] && AcceptsLabels(r, q', x);
      var s' := AcceptedRun(r, q', x);
      RunFlipsIff(a, r, s', w, q');
      DeterministicRun(a, s, w, q, q');
    }
  }

  lemma RunAccepts(t: FST, p: nat, w: seq<Label>, f: nat)
    requires LabelRun(t, p, w, f) && f in t.final
    ensures AcceptsLabels(t, p, w)
  {
  }

  lemma AcceptedRun(t: FST, p: nat, w: seq<Label>) returns (f: nat)
    requires AcceptsLabels(t, p, w)
    ensures LabelRun(t, p, w, f) && f in t.final
  {
    f :| LabelRun(t, p, w, f) && f in t.final;
  }

  lemma ReversedEnds(t: FST, r: FST)
    requires Reversed(t, r)
    ensures r.final == t.initial && r.initial == t.final && r.n == t.n
  {
  }

  /** Determinizing the reversal of an accessible deterministic automaton leaves no two states with the same label language. */
  lemma ReversalDistinguishes(a: FST, r: FST, d: FST, sets: seq<set<nat>>)
    requires PseudoDeterministic(a) && Accessible(a) && Reversed(a, r) && Determinized(r, d, sets)
    ensures AllDistinguished(d)
  {
    hide Reversed, Determinized, PseudoDeterministic, Accessible, Distinguished;
    SubsetStart(r, d, sets);
    forall i: nat, j: nat | i < j < d.n ensures Distinguished(d, i, j) {
      if sets[i] == sets[j] {
        SameSubset(r, d, sets, i, j);
        assert false;
      }
      StatesBelow(a, r, d, sets, i);
      StatesBelow(a, r, d, sets, j);
      if q :| q in sets[i] && q !in sets[j] {
        WordForState(a, r, d, sets, i, j, q);
      } else {
        var q :| q in sets[j] && q !in sets[i];
        WordForState(a, r, d, sets, j, i, q);
        DistinguishedSymmetric(d, j, i);
      }
    }
  }

  lemma DistinguishedSymmetric(t: FST, i: nat, j: nat)
    requires Distinguished(t, i, j)
    ensures Distinguished(t, j, i)
  {
  }

  lemma StatesBelow(a: FST, r: FST, d: FST, sets: seq<set<nat>>, i: nat)
    requires Accessible(a) && Reversed(a, r) && Determinized(r, d, sets) && i < |sets|
    ensures forall q :: q in sets[i] ==> q < a.n
  {
    hide IsReached, HasArc, Hits, PostWord, Post, ArcRight;
    assert SubsetOk(r, i, sets[i]);
    var w :| sets[i] == PostWord(r, r.initial, w);
    PostWordTargets(r, w);
    forall q | q in sets[i] ensures q < a.n {
      if q !in r.initial {
        var c :| c in r.arcs && c.to == q;
        var k :| 0 <= k < |r.arcs| && r.arcs[k] == c;
        assert a.arcs[k] in a.arcs;
      }
    }
  }

  // ---------- minimality of the double reversal ----------

  /** A deterministic automaton accepts from the state that a word leads to exactly the rest of the language. */
  lemma RestOfLanguage(t: FST, s: nat, w: seq<Label>, q: nat, x: seq<Label>)
    requires PseudoDeterministic(t) && s in t.initial && LabelRun(t, s, w, q)
    ensures AcceptsLabels(t, q, x) <==> LabelLanguage(t, w + x)
  {
    hide LabelRun, AcceptsLabels;
    if AcceptsLabels(t, q, x) {
      var f := AcceptedRun(t, q, x);
      RunsJoin(t, s, w, q, x, f);
      RunAccepts(t, s, w + x, f);
    }
    if LabelLanguage(t, w + x) {
      var s' :| s' in t.initial && AcceptsLabels(t, s', w + x);
      var f := AcceptedRun(t, s', w + x);
      var q' := RunsSplit(t, s, w, x, f);
      DeterministicRun(t, s, w, q, q');
      RunAccepts(t, q, x, f);
    }
  }

  lemma {:induction false} RunsJoin(t: FST, p: nat, w: seq<Label>, q: nat, x: seq<Label>, f: nat)
    requires LabelRun(t, p, w, q) && LabelRun(t, q, x, f)
    ensures LabelRun(t, p, w + x, f)
    decreases w
  {
    hide LabelRun;
    if w == [] {
      LabelRunEmpty(t, p, q);
      assert w + x == x;
    } else {
      var a := FirstLabel(t, p, w, q);
      RunsJoin(t, a.to, w[1..], q, x, f);
      LabelStep(t, a, w[1..] + x, f);
      assert [LabelOf(a)] + (w[1..] + x) == w + x;
    }
  }

  lemma {:induction false} RunsSplit(t: FST, p: nat, w: seq<Label>, x: seq<Label>, f: nat) returns (q: nat)
    requires LabelRun(t, p, w + x, f)
    ensures LabelRun(t, p, w, q) && LabelRun(t, q, x, f)
    decreases w
  {
    hide LabelRun;
    if w == [] {
      LabelRunEmpty(t, p, p);
      assert w + x == x;
      q := p;
    } else {
      var a := FirstLabel(t, p, w + x, f);
      assert (w + x)[1..] == w[1..] + x;
      q := RunsSplit(t, a.to, w[1..], x, f);
      LabelStep(t, a, w[1..], q);
      assert [LabelOf(a)] + w[1..] == w;
    }
  }

  /** From every state some label word is accepted. */
  ghost predicate Productive(t: FST) {
    forall i: nat {:trigger IsProductive(t, i)} :: i < t.n ==> IsProductive(t, i)
  }

  ghost predicate IsProductive(t: FST, i: nat) {
    exists x {:trigger AcceptsLabels(t, i, x)} :: AcceptsLabels(t, i, x)
  }

  /** The state of m that a word leading to i in d leads to. */
  ghost predicate SameWord(d: FST, m: FST, i: nat, q: nat) {
    exists s, s', w {:trigger LabelRun(d, s, w, i), LabelRun(m, s', w, q)} ::
      s in d.initial && s' in m.initial && LabelRun(d, s, w, i) && LabelRun(m, s', w, q)
  }

  lemma Counterpart(d: FST, m: FST, i: nat) returns (q: nat)
    requires PseudoDeterministic(d) && Accessible(d) && Productive(d) && i < d.n
    requires SameLabelLanguage(d, m)
    ensures SameWord(d, m, i, q)
  {
    hide LabelRun, AcceptsLabels, LabelLanguage, PseudoDeterministic;
    assert IsReached(d, i) && IsProductive(d, i);
    var s, w :| s in d.initial && LabelRun(d, s, w, i);
    var x :| AcceptsLabels(d, i, x);
    RestOfLanguage(d, s, w, i, x);
    assert LabelLanguage(m, w + x);
    LanguageRun(m, w + x);
    var s', f :| s' in m.initial && f in m.final && LabelRun(m, s', w + x, f);
    q := RunsSplit(m, s', w, x, f);
  }

  lemma CounterpartsDiffer(d: FST, m: FST, i: nat, j: nat, q: nat)
    requires PseudoDeterministic(d) && PseudoDeterministic(m) && SameLabelLanguage(d, m)
    requires SameWord(d, m, i, q) && SameWord(d, m, j, q)
    ensures !Distinguished(d, i, j)
  {
    hide LabelRun, AcceptsLabels, LabelLanguage, PseudoDeterministic;
    var s, s', w :| s in d.initial && s' in m.initial && LabelRun(d, s, w, i) && LabelRun(m, s', w, q);
    var z, z', y :| z in d.initial && z' in m.initial && LabelRun(d, z, y, j) && LabelRun(m, z', y, q);
    forall x ensures AcceptsLabels(d, i, x) == AcceptsLabels(d, j, x) {
      RestOfLanguage(d, s, w, i, x);
      RestOfLanguage(d, z, y, j, x);
      RestOfLanguage(m, s', w, q, x);
      RestOfLanguage(m, z', y, q, x);
      assert LabelLanguage(m, w + x) <==> LabelLanguage(d, w + x);
      assert LabelLanguage(m, y + x) <==> LabelLanguage(d, y + x);
    }
  }

  /** States within bounds, as far as runs from the initial states meet them. */
  predicate Bounded(m: FST) {
    (forall s :: s in m.initial ==> s < m.n) && forall a :: a in m.arcs ==> a.to < m.n
  }

  lemma RunBounded(m: FST, s: nat, w: seq<Label>, q: nat)
    requires Bounded(m) && s in m.initial && LabelRun(m, s, w, q)
    ensures q < m.n
  {
    hide LabelRun;
    if w == [] {
      LabelRunEmpty(m, s, q);
    } else {
      assert w == w[..|w| - 1] + [w[|w| - 1]];
      var a := LastLabel(m, s, w[..|w| - 1], w[|w| - 1], q);
    }
  }

  /** No pseudo-deterministic automaton with the same label language has fewer states. */
  lemma DistinguishedIsMinimal(d: FST, m: FST)
    requires PseudoDeterministic(d) && Accessible(d) && Productive(d) && AllDistinguished(d)
    requires PseudoDeterministic(m) && Bounded(m) && SameLabelLanguage(d, m)
    ensures d.n <= m.n
  {
    hide PseudoDeterministic, Accessible, Productive, Distinguished, SameLabelLanguage, Bounded, SameWord;
    var f: seq<nat> := [];
    while |f| < d.n
      invariant |f| <= d.n
      invariant forall i: nat {:trigger f[i]} :: i < |f| ==> SameWord(d, m, i, f[i]) && f[i] < m.n
    {
      var q := Counterpart(d, m, |f|);
      SameWordBounded(d, m, |f|, q);
      f := f + [q];
    }
    forall i, j | 0 <= i < j < |f| ensures f[i] != f[j] {
      if f[i] == f[j] {
        assert Distinguished(d, i, j);
        CounterpartsDiffer(d, m, i, j, f[i]);
      }
    }
    Pigeons(f, m.n);
  }

  lemma SameWordBounded(d: FST, m: FST, i: nat, q: nat)
    requires SameWord(d, m, i, q) && Bounded(m)
    ensures q < m.n
  {
    hide LabelRun, Bounded;
    var s, s', w :| s in d.initial && s' in m.initial && LabelRun(d, s, w, i) && LabelRun(m, s', w, q);
    RunBounded(m, s', w, q);
  }

  /** In the determinized reversal every state is productive, unless the language is empty. */
  lemma ReversalProductive(a: FST, r: FST, d: FST, sets: seq<set<nat>>)
    requires Accessible(a) && Reversed(a, r) && Determinized(r, d, sets)
    requires exists w :: LabelLanguage(d, w)
    ensures Productive(d)
  {
    hide LabelRun, Reversed, Determinized, LabelLanguage, Accessible;
    SubsetStart(r, d, sets);
    forall i: nat | i < d.n ensures IsProductive(d, i) {
      if i > 0 {
        SubsetNotEmpty(r, d, sets, i);
        StatesBelow(a, r, d, sets, i);
        var q :| q in sets[i];
        var s, w := ReachedWord(a, q);
        RunFlipsIff(a, r, s, w, q);
        ReversedEnds(a, r);
        RunAccepts(r, q, Backwards(w), s);
        SubsetAccepts(r, d, sets, i, Backwards(w));
      } else {
        var w :| LabelLanguage(d, w);
        LanguageRun(d, w);
        var s, f :| s in d.initial && f in d.final && LabelRun(d, s, w, f);
        RunAccepts(d, 0, w, f);
      }
    }
  }

  lemma SubsetNotEmpty(t: FST, d: FST, sets: seq<set<nat>>, i: nat)
    requires Determinized(t, d, sets) && 0 < i < |sets|
    ensures sets[i] != {}
  {
    assert SubsetOk(t, i, sets[i]);
  }

  lemma ReachedWord(a: FST, q: nat) returns (s: nat, w: seq<Label>)
    requires Accessible(a) && q < a.n
    ensures s in a.initial && LabelRun(a, s, w, q)
  {
    hide LabelRun;
    assert IsReached(a, q);
    s, w :| s in a.initial && LabelRun(a, s, w, q);
  }

  /** What minimization promises. */
  ghost predicate Minimized(t: FST, d: FST) {
    && SameLabelLanguage(t, d) && (forall v :: v in d.fEps <==> v in t.fEps)
    && PseudoDeterministic(d) && Accessible(d) && AllDistinguished(d)
    && ((exists w :: LabelLanguage(t, w)) ==> Productive(d))
    && ((forall w :: !LabelLanguage(t, w)) ==> d.n == 1 && d.arcs == [] && d.final == {})
  }

  /** No pseudo-deterministic automaton with an initial state and the same label language has fewer states; for the
      empty language, where an automaton may do without states, the result has its initial state alone. */
  lemma MinimizedIsMinimal(t: FST, d: FST, m: FST)
    requires Minimized(t, d)
    requires PseudoDeterministic(m) && Bounded(m) && SameLabelLanguage(t, m)
    ensures (exists w :: LabelLanguage(t, w)) || m.initial != {} ==> d.n <= m.n
    ensures (forall w :: !LabelLanguage(t, w)) ==> d.n == 1 && d.arcs == [] && d.final == {}
  {
    hide LabelLanguage, PseudoDeterministic, Accessible, AllDistinguished, Productive;
    if exists w :: LabelLanguage(t, w) {
      forall w: seq<Label> ensures LabelLanguage(d, w) <==> LabelLanguage(m, w) {
        assert LabelLanguage(t, w) <==> LabelLanguage(d, w);
      }
      DistinguishedIsMinimal(d, m);
    } else if m.initial != {} {
      var q :| q in m.initial;
    }
  }

  /** Nothing leads to a final state of an accessible automaton without words, so it has none. */
  lemma NoWordsNoFinals(e: FST)
    requires Accessible(e) && forall w :: !LabelLanguage(e, w)
    ensures e.final == {}
  {
    hide LabelRun, LabelLanguage;
    if q :| q in e.final {
      var s, w := ReachedWord(e, q);
      LanguageRun(e, w);
      assert false;
    }
  }

  lemma MetIsEmpty(s: FST, d: FST, sets: seq<set<nat>>, i: nat)
    requires Determinized(s, d, sets) && s.initial == {} && i < |sets|
    ensures sets[i] == {}
  {
    hide PostWord;
    assert SubsetOk(s, i, sets[i]);
    var w :| sets[i] == PostWord(s, s.initial, w);
    PostWordOfNothing(s, w);
  }

  /** Without initial states only the empty subset is met. */
  lemma NothingToDeterminize(s: FST, d: FST, sets: seq<set<nat>>)
    requires Determinized(s, d, sets) && s.initial == {}
    ensures d.n == 1 && d.arcs == [] && d.final == {}
  {
    if |sets| > 1 {
      MetIsEmpty(s, d, sets, 1);
      SubsetNotEmpty(s, d, sets, 1);
      assert false;
    }
    if d.arcs != [] {
      var a := d.arcs[0];
      assert a in d.arcs;
      assert ArcRight(s, a, sets);
      MetIsEmpty(s, d, sets, a.to);
      assert false;
    }
    if i :| i in d.final {
      assert Hits(sets[i], s.final);
      MetIsEmpty(s, d, sets, i);
      assert false;
    }
  }

  /** Minimization by determinizing the reversal twice. */
  method PseudoMinimizeSlow(t: FST) returns (d: ExpandedFst)
    ensures fresh(d) && Minimized(t, d.Value())
  {
    hide Reversed, Determinized, Minimized;
    var r := ReverseFst(t);
    var e, setsE := PseudoDeterminize(r.Value());
    var s := ReverseFst(e.Value());
    ghost var sets;
    d, sets := PseudoDeterminize(s.Value());
    DoubleReversalMinimizes(t, r.Value(), e.Value(), setsE, s.Value(), d.Value(), sets);
  }

  lemma DoubleReversalMinimizes(t: FST, r: FST, e: FST, setsE: seq<set<nat>>, s: FST, d: FST, sets: seq<set<nat>>)
    requires Reversed(t, r) && Determinized(r, e, setsE) && Reversed(e, s) && Determinized(s, d, sets)
    ensures Minimized(t, d)
  {
    hide Reversed, Determinized, LabelLanguage, PseudoDeterministic, Accessible, AllDistinguished, Productive;
    DeterminizedLanguage(r, e, setsE);
    DeterminizedLanguage(s, d, sets);
    DeterminizedIsDeterministic(r, e, setsE);
    DeterminizedIsDeterministic(s, d, sets);
    DeterminizedIsAccessible(r, e, setsE);
    DeterminizedIsAccessible(s, d, sets);
    ReversalDistinguishes(e, s, d, sets);
    forall w: seq<Label> ensures LabelLanguage(t, w) <==> LabelLanguage(d, w) {
      ReversedLanguage(t, r, w);
      assert LabelLanguage(r, Backwards(w)) <==> LabelLanguage(e, Backwards(w));
      ReversedLanguage(e, s, Backwards(w));
      BackwardsTwice(w);
      assert LabelLanguage(s, w) <==> LabelLanguage(d, w);
    }
    ReversedOutputs(t, r);
    ReversedOutputs(e, s);
    if w :| LabelLanguage(t, w) {
      assert LabelLanguage(d, w);
      ReversalProductive(e, s, d, sets);
    } else {
      forall w: seq<Label> ensures !LabelLanguage(e, w) {
        ReversedLanguage(t, r, Backwards(w));
        BackwardsTwice(w);
        assert LabelLanguage(r, w) <==> LabelLanguage(e, w);
      }
      NoWordsNoFinals(e);
      ReversedEnds(e, s);
      NothingToDeterminize(s, d, sets);
    }
  }

  lemma ReversedOutputs(t: FST, r: FST)
    requires Reversed(t, r)
    ensures forall v :: v in r.fEps <==> v in t.fEps
  {
  }
}
