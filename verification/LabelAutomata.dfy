/** A real-time transducer seen as an automaton that reads whole labels: pairs of a symbol and an output word. */
module LabelAutomata {
  import opened Words
  import opened Expanded

  type Label = (Symbol, Word)

  function LabelOf(a: Arc): Label {
    (a.sym, a.out)
  }

  // ---------- the label language ----------

  ghost predicate LabelRun(t: FST, p: nat, w: seq<Label>, q: nat)
    decreases w
  {
    if w == [] then p == q
    else exists a {:trigger ArcOn(t, a, p, w[0])} :: ArcOn(t, a, p, w[0]) && LabelRun(t, a.to, w[1..], q)
  }

  predicate ArcOn(t: FST, a: Arc, p: nat, l: Label) {
    a in t.arcs && a.from == p && LabelOf(a) == l
  }

  /** The label word w leads from q to a final state. */
  ghost predicate AcceptsLabels(t: FST, q: nat, w: seq<Label>) {
    exists f {:trigger LabelRun(t, q, w, f)} :: f in t.final && LabelRun(t, q, w, f)
  }

  ghost predicate LabelLanguage(t: FST, w: seq<Label>) {
    exists s {:trigger AcceptsLabels(t, s, w)} :: s in t.initial && AcceptsLabels(t, s, w)
  }

  /** Some label word leads from an initial state to q. */
  ghost predicate IsReached(t: FST, q: nat) {
    exists s, w {:trigger LabelRun(t, s, w, q)} :: s in t.initial && LabelRun(t, s, w, q)
  }

  ghost predicate SameLabelLanguage(t: FST, t': FST) {
    forall w: seq<Label> {:trigger LabelLanguage(t, w)} {:trigger LabelLanguage(t', w)} :: LabelLanguage(t, w) <==> LabelLanguage(t', w)
  }

  /** At most one initial state, and at most one successor for each label. */
  predicate PseudoDeterministic(t: FST) {
    && (forall s, s' :: s in t.initial && s' in t.initial ==> s == s')
    && forall a, b :: a in t.arcs && b in t.arcs && a.from == b.from && LabelOf(a) == LabelOf(b) ==> a.to == b.to
  }

  lemma LabelStep(t: FST, a: Arc, w: seq<Label>, q: nat)
    requires a in t.arcs && LabelRun(t, a.to, w, q)
    ensures LabelRun(t, a.from, [LabelOf(a)] + w, q)
  {
    assert ([LabelOf(a)] + w)[1..] == w;
    assert ArcOn(t, a, a.from, ([LabelOf(a)] + w)[0]);
  }

  lemma FirstLabel(t: FST, p: nat, w: seq<Label>, q: nat) returns (a: Arc)
    requires w != [] && LabelRun(t, p, w, q)
    ensures ArcOn(t, a, p, w[0]) && LabelRun(t, a.to, w[1..], q)
  {
    a :| ArcOn(t, a, p, w[0]) && LabelRun(t, a.to, w[1..], q);
  }

  lemma LabelRunEmpty(t: FST, p: nat, q: nat)
    ensures LabelRun(t, p, [], q) <==> p == q
  {
  }

  lemma {:induction false} LabelRunThen(t: FST, p: nat, w: seq<Label>, a: Arc)
    requires a in t.arcs && LabelRun(t, p, w, a.from)
    ensures LabelRun(t, p, w + [LabelOf(a)], a.to)
    decreases w
  {
    hide LabelRun;
    if w == [] {
      LabelRunEmpty(t, p, a.from);
      LabelRunEmpty(t, a.to, a.to);
      LabelStep(t, a, [], a.to);
      assert [LabelOf(a)] + [] == w + [LabelOf(a)];
    } else {
      var b := FirstLabel(t, p, w, a.from);
      LabelRunThen(t, b.to, w[1..], a);
      LabelStep(t, b, w[1..] + [LabelOf(a)], a.to);
      assert [LabelOf(b)] + (w[1..] + [LabelOf(a)]) == w + [LabelOf(a)];
    }
  }

  lemma {:induction false} LastLabel(t: FST, p: nat, w: seq<Label>, l: Label, q: nat) returns (a: Arc)
    requires LabelRun(t, p, w + [l], q)
    ensures a in t.arcs && a.to == q && LabelOf(a) == l && LabelRun(t, p, w, a.from)
    decreases w
  {
    hide LabelRun;
    var b := FirstLabel(t, p, w + [l], q);
    if w == [] {
      assert (w + [l])[1..] == [];
      LabelRunEmpty(t, b.to, q);
      LabelRunEmpty(t, p, p);
      a := b;
    } else {
      assert (w + [l])[1..] == w[1..] + [l];
      a := LastLabel(t, b.to, w[1..], l, q);
      LabelStep(t, b, w[1..], a.from);
      assert [LabelOf(b)] + w[1..] == w;
    }
  }

  // ---------- the label language determines the relation ----------

  function Input(w: seq<Label>): Word {
    if w == [] then [] else [w[0].0] + Input(w[1..])
  }

  function Output(w: seq<Label>): Word {
    if w == [] then [] else w[0].1 + Output(w[1..])
  }

  lemma {:induction false} LabelsGivePath(t: FST, q: nat, w: seq<Label>, f: nat)
    requires LabelRun(t, q, w, f) && f in t.final
    ensures Accepts(t, q, Input(w), Output(w))
    decreases w
  {
    hide LabelRun, Accepts;
    if w == [] {
      LabelRunEmpty(t, q, f);
      AcceptsEmpty(t, q, []);
    } else {
      var a := FirstLabel(t, q, w, f);
      LabelsGivePath(t, a.to, w[1..], f);
      AcceptsStep(t, a, Input(w[1..]), Output(w[1..]));
    }
  }

  lemma {:induction false} PathGivesLabels(t: FST, q: nat, u: Word, v: Word) returns (w: seq<Label>, f: nat)
    requires Accepts(t, q, u, v)
    ensures Input(w) == u && Output(w) == v && f in t.final && LabelRun(t, q, w, f)
    decreases u
  {
    hide LabelRun, Accepts;
    if u == [] {
      AcceptsEmpty(t, q, v);
      LabelRunEmpty(t, q, q);
      w, f := [], q;
    } else {
      var a, rest := FirstArc(t, q, u, v);
      var w';
      w', f := PathGivesLabels(t, a.to, u[1..], rest);
      LabelStep(t, a, w', f);
      w := [LabelOf(a)] + w';
      assert w[1..] == w';
    }
  }

  lemma PathRelFromLabels(t: FST, u: Word, v: Word)
    ensures PathRel(t, u, v) <==> exists w {:trigger LabelLanguage(t, w)} :: LabelLanguage(t, w) && Input(w) == u && Output(w) == v
  {
    hide LabelRun, Accepts, Input, Output;
    if PathRel(t, u, v) {
      var s :| s in t.initial && Accepts(t, s, u, v);
      var w, f := PathGivesLabels(t, s, u, v);
      assert AcceptsLabels(t, s, w);
      assert LabelLanguage(t, w);
    }
    if w :| LabelLanguage(t, w) && Input(w) == u && Output(w) == v {
      var s :| s in t.initial && AcceptsLabels(t, s, w);
      var f :| f in t.final && LabelRun(t, s, w, f);
      LabelsGivePath(t, s, w, f);
    }
  }

  /** Keeping the label language and the outputs of the empty word keeps the relation. */
  lemma SameLabelsSameRelation(t: FST, t': FST, u: Word, v: Word)
    requires SameLabelLanguage(t, t') && forall o :: o in t.fEps <==> o in t'.fEps
    ensures Rel(t, u, v) <==> Rel(t', u, v)
  {
    hide LabelLanguage, PathRel, Input, Output;
    PathRelFromLabels(t, u, v);
    PathRelFromLabels(t', u, v);
    if PathRel(t, u, v) {
      var w :| LabelLanguage(t, w) && Input(w) == u && Output(w) == v;
      assert LabelLanguage(t', w);
    }
    if PathRel(t', u, v) {
      var w :| LabelLanguage(t', w) && Input(w) == u && Output(w) == v;
      assert LabelLanguage(t, w);
    }
  }

  // ---------- sets of states ----------

  /** Where the states in b go by the label l. */
  function Post(t: FST, b: set<nat>, l: Label): set<nat> {
    set a | a in t.arcs && a.from in b && LabelOf(a) == l :: a.to
  }

  function PostWord(t: FST, b: set<nat>, w: seq<Label>): set<nat>
    decreases w
  {
    if w == [] then b else PostWord(t, Post(t, b, w[0]), w[1..])
  }

  lemma {:induction false} PostWordRuns(t: FST, b: set<nat>, w: seq<Label>, q: nat)
    ensures q in PostWord(t, b, w) <==> exists p {:trigger LabelRun(t, p, w, q)} :: p in b && LabelRun(t, p, w, q)
    decreases w
  {
    hide LabelRun, Post;
    if w == [] {
      LabelRunEmpty(t, q, q);
      assert LabelRun(t, q, w, q);
      if p :| p in b && LabelRun(t, p, w, q) {
        LabelRunEmpty(t, p, q);
      }
    } else {
      PostWordRuns(t, Post(t, b, w[0]), w[1..], q);
      if q in PostWord(t, b, w) {
        var r :| r in Post(t, b, w[0]) && LabelRun(t, r, w[1..], q);
        var a := PostArc(t, b, w[0], r);
        LabelStep(t, a, w[1..], q);
        assert [LabelOf(a)] + w[1..] == w;
        assert LabelRun(t, a.from, w, q);
      }
      if p :| p in b && LabelRun(t, p, w, q) {
        var a := FirstLabel(t, p, w, q);
        InPost(t, b, w[0], a);
        assert LabelRun(t, a.to, w[1..], q);
        assert q in PostWord(t, Post(t, b, w[0]), w[1..]);
      }
    }
  }

  lemma PostArc(t: FST, b: set<nat>, l: Label, r: nat) returns (a: Arc)
    requires r in Post(t, b, l)
    ensures a in t.arcs && a.from in b && LabelOf(a) == l && a.to == r
  {
    a :| a in t.arcs && a.from in b && LabelOf(a) == l && a.to == r;
  }

  lemma InPost(t: FST, b: set<nat>, l: Label, a: Arc)
    requires a in t.arcs && a.from in b && LabelOf(a) == l
    ensures a.to in Post(t, b, l)
  {
  }

  lemma {:induction false} PostWordSnoc(t: FST, b: set<nat>, w: seq<Label>, l: Label)
    ensures PostWord(t, b, w + [l]) == Post(t, PostWord(t, b, w), l)
    decreases w
  {
    hide Post;
    if w == [] {
      assert (w + [l])[1..] == [];
    } else {
      assert (w + [l])[1..] == w[1..] + [l];
      PostWordSnoc(t, Post(t, b, w[0]), w[1..], l);
    }
  }
}
