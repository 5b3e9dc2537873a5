/** Pseudo-minimization by partition refinement. */
module Crochemore {
  import opened Counting
  import opened Words
  import opened Expanded
  import opened LabelAutomata
  import opened Determinize
  import opened Partition

  /** How reading may end at q; `psi` holds the final outputs of a subsequential machine. */
  function EndingOf(t: FST, psi: Option<map<nat, Word>>, q: nat): Ending {
    if q !in t.final then NotFinal
    else if psi.Some? && q in psi.value then FinalWith(psi.value[q])
    else Final
  }

  // ---------- states reachable from the initial ones ----------

  ghost predicate LocalOk(t: FST, states: seq<nat>, local: map<nat, nat>) {
    && |local| == |states|
    && (forall i: nat {:trigger states[i]} :: i < |states| ==> states[i] in local && local[states[i]] == i)
    && (forall q {:trigger q in local} :: q in local ==> local[q] < |states| && states[local[q]] == q)
    && (states != [] ==> states[0] in t.initial)
    && (forall q {:trigger q in local} :: q in local ==> IsReached(t, q))
  }

  ghost predicate Gathered(t: FST, states: seq<nat>, local: map<nat, nat>) {
    && LocalOk(t, states, local)
    && t.initial <= local.Keys
    && forall a {:trigger a in t.arcs} :: a in t.arcs && a.from in local ==> a.to in local
  }

  lemma AddLocal(t: FST, states: seq<nat>, local: map<nat, nat>, q: nat)
    requires LocalOk(t, states, local) && q !in local && IsReached(t, q) && (states == [] ==> q in t.initial)
    ensures LocalOk(t, states + [q], local[q := |states|])
  {
    hide IsReached;
  }

  lemma StartReached(t: FST, q: nat)
    requires q in t.initial
    ensures IsReached(t, q)
  {
    LabelRunEmpty(t, q, q);
  }

  lemma ArcReached(t: FST, a: Arc)
    requires a in t.arcs && IsReached(t, a.from)
    ensures IsReached(t, a.to)
  {
    hide LabelRun;
    var s, w :| s in t.initial && LabelRun(t, s, w, a.from);
    LabelRunThen(t, s, w, a);
  }

  ghost function Reachables(t: FST): set<nat> {
    t.initial + Targets(t)
  }

  lemma ReachedBound(t: FST, q: nat)
    requires IsReached(t, q)
    ensures q in Reachables(t)
  {
    hide LabelRun;
    var s, w :| s in t.initial && LabelRun(t, s, w, q);
    if w == [] {
      LabelRunEmpty(t, s, q);
    } else {
      assert w == w[..|w| - 1] + [w[|w| - 1]];
      var a := LastLabel(t, s, w[..|w| - 1], w[|w| - 1], q);
    }
  }

  lemma LocalBound(t: FST, states: seq<nat>, local: map<nat, nat>)
    requires LocalOk(t, states, local)
    ensures |states| <= |Reachables(t)|
  {
    hide IsReached, Reachables;
    forall q | q in local.Keys ensures q in Reachables(t) {
      ReachedBound(t, q);
    }
    SubsetSize(local.Keys, Reachables(t));
  }

  /** The arcs from the first states, and the first k arcs as far as they start in the next one, stay inside. */
  ghost predicate Closed(t: FST, local: map<nat, nat>, head: nat, k: nat) {
    forall i: nat {:trigger t.arcs[i]} :: i < |t.arcs| && t.arcs[i].from in local && (local[t.arcs[i].from] < head || (local[t.arcs[i].from] == head && i < k))
      ==> t.arcs[i].to in local
  }

  lemma ClosedMore(t: FST, local: map<nat, nat>, head: nat, k: nat, q: nat, n: nat)
    requires Closed(t, local, head, k) && q !in local && n > head
    ensures Closed(t, local[q := n], head, k)
  {
  }

  lemma ClosedArc(t: FST, local: map<nat, nat>, head: nat, k: nat)
    requires Closed(t, local, head, k) && k < |t.arcs|
    requires t.arcs[k].from in local && local[t.arcs[k].from] == head ==> t.arcs[k].to in local
    ensures Closed(t, local, head, k + 1)
  {
  }

  lemma ClosedState(t: FST, local: map<nat, nat>, head: nat)
    requires Closed(t, local, head, |t.arcs|)
    ensures Closed(t, local, head + 1, 0)
  {
  }

  lemma AllClosed(t: FST, states: seq<nat>, local: map<nat, nat>, head: nat)
    requires LocalOk(t, states, local) && Closed(t, local, head, 0) && head == |states| && t.initial <= local.Keys
    ensures Gathered(t, states, local)
  {
    hide IsReached;
    forall a | a in t.arcs && a.from in local ensures a.to in local {
      var i: nat :| i < |t.arcs| && t.arcs[i] == a;
    }
  }

  lemma LocalFacts(t: FST, states: seq<nat>, local: map<nat, nat>, i: nat)
    requires LocalOk(t, states, local) && i < |states|
    ensures states[i] in local && local[states[i]] == i && IsReached(t, states[i])
  {
  }

  method GatherInitial(t: FST) returns (states: seq<nat>, local: map<nat, nat>)
    ensures LocalOk(t, states, local) && t.initial <= local.Keys
  {
    hide IsReached;
    states, local := [], map[];
    var todo := t.initial;
    while todo != {}
      invariant todo <= t.initial && t.initial - todo <= local.Keys
      invariant LocalOk(t, states, local)
    {
      var q :| q in todo;
      todo := todo - {q};
      if q !in local {
        StartReached(t, q);
        AddLocal(t, states, local, q);
        local := local[q := |states|];
        states := states + [q];
      }
    }
  }

  /** The search from the initial states: the states met, in this order, and the position of each. */
  method Gather(t: FST) returns (states: seq<nat>, local: map<nat, nat>)
    ensures Gathered(t, states, local)
  {
    hide IsReached, Reachables, Closed, Gathered, LocalOk;
    states, local := GatherInitial(t);
    var queue := states;
    NothingClosed(t, local);
    ghost var head := 0;
    while queue != []
      invariant LocalOk(t, states, local) && Closed(t, local, head, 0) && t.initial <= local.Keys
      invariant head <= |states| && queue == states[head..]
      decreases |Reachables(t)| - head
    {
      var q := queue[0];
      queue := queue[1..];
      for k := 0 to |t.arcs|
        invariant LocalOk(t, states, local) && Closed(t, local, head, k) && t.initial <= local.Keys
        invariant head < |states| && queue == states[head + 1..] && q == states[head]
      {
        var a := t.arcs[k];
        LocalFacts(t, states, local, head);
        if a.from == q && a.to !in local {
          ArcReached(t, a);
          AddLocal(t, states, local, a.to);
          ClosedMore(t, local, head, k, a.to, |states|);
          local := local[a.to := |states|];
          states := states + [a.to];
          queue := queue + [a.to];
        }
        OnlyAtHead(t, states, local, head, a.from);
        ClosedArc(t, local, head, k);
      }
      ClosedState(t, local, head);
      LocalBound(t, states, local);
      head := head + 1;
    }
    AllClosed(t, states, local, head);
  }

  lemma NothingClosed(t: FST, local: map<nat, nat>)
    ensures Closed(t, local, 0, 0)
  {
  }

  lemma OnlyAtHead(t: FST, states: seq<nat>, local: map<nat, nat>, head: nat, p: nat)
    requires LocalOk(t, states, local) && head < |states|
    ensures p in local && local[p] == head ==> p == states[head]
  {
  }

  // ---------- the graph on the states met ----------

  /** The labels readable at q and the positions they lead to. */
  ghost predicate EdgesOf(t: FST, local: map<nat, nat>, q: nat, e: map<Label, nat>) {
    && (forall a {:trigger a in t.arcs} :: a in t.arcs && a.from == q ==> a.to in local && LabelOf(a) in e && e[LabelOf(a)] == local[a.to])
    && (forall l {:trigger l in e} :: l in e ==> exists a {:trigger ArcOn(t, a, q, l)} :: ArcOn(t, a, q, l))
  }

  /** Two arcs from one state met carry one label to different states. */
  ghost predicate Ambiguous(t: FST, local: map<nat, nat>) {
    exists a, b :: a in t.arcs && b in t.arcs && a.from in local && a.from == b.from && LabelOf(a) == LabelOf(b) && a.to != b.to
  }

  ghost predicate EdgesPart(t: FST, local: map<nat, nat>, q: nat, e: map<Label, nat>, k: nat)
    requires k <= |t.arcs|
  {
    && (forall i: nat {:trigger t.arcs[i]} :: i < k && t.arcs[i].from == q ==> t.arcs[i].to in local && LabelOf(t.arcs[i]) in e && e[LabelOf(t.arcs[i])] == local[t.arcs[i].to])
    && (forall l {:trigger l in e} :: l in e ==> exists a {:trigger ArcOn(t, a, q, l)} :: ArcOn(t, a, q, l) && a.to in local && e[l] == local[a.to])
  }

  method ReadEdges(t: FST, states: seq<nat>, local: map<nat, nat>, q: nat) returns (e: map<Label, nat>, ok: bool)
    requires Gathered(t, states, local) && q in local
    ensures !ok ==> Ambiguous(t, local)
    ensures ok ==> EdgesOf(t, local, q, e)
  {
    hide LocalOk, EdgesOf;
    e, ok := map[], true;
    for k := 0 to |t.arcs|
      invariant EdgesPart(t, local, q, e, k)
    {
      var a := t.arcs[k];
      if a.from == q {
        assert a in t.arcs && a.to in local;
        var l := LabelOf(a);
        assert ArcOn(t, a, q, l);
        if l in e && e[l] != local[a.to] {
          ghost var b :| ArcOn(t, b, q, l) && b.to in local && e[l] == local[b.to];
          return e, false;
        }
        e := e[l := local[a.to]];
      }
    }
    EdgesComplete(t, local, q, e);
  }

  lemma EdgesComplete(t: FST, local: map<nat, nat>, q: nat, e: map<Label, nat>)
    requires EdgesPart(t, local, q, e, |t.arcs|)
    ensures EdgesOf(t, local, q, e)
  {
    forall a | a in t.arcs && a.from == q ensures a.to in local && LabelOf(a) in e && e[LabelOf(a)] == local[a.to] {
      var i: nat :| i < |t.arcs| && t.arcs[i] == a;
    }
  }

  /** The automaton t, as far as it can be met, drawn as the graph g; `at` gives the state of each node. */
  ghost predicate Draws(t: FST, psi: Option<map<nat, Word>>, g: Graph, at: seq<nat>) {
    && g.Valid() && |at| == |g.edges|
    && (forall i: nat {:trigger at[i]} :: i < |at| ==> g.ends[i] == EndingOf(t, psi, at[i]) && NodeOk(t, g, at, i))
  }

  ghost predicate NodeOk(t: FST, g: Graph, at: seq<nat>, i: nat)
    requires g.Valid() && |at| == |g.edges| && i < |at|
  {
    && (forall a {:trigger a in t.arcs} :: a in t.arcs && a.from == at[i] ==> LabelOf(a) in g.edges[i] && at[g.edges[i][LabelOf(a)]] == a.to)
    && (forall l {:trigger l in g.edges[i]} :: l in g.edges[i] ==> exists a {:trigger ArcOn(t, a, at[i], l)} :: ArcOn(t, a, at[i], l))
  }

  /** The graph of all states met, unless some label is ambiguous. */
  method Draw(t: FST, psi: Option<map<nat, Word>>, states: seq<nat>, local: map<nat, nat>) returns (g: Graph, ok: bool)
    requires Gathered(t, states, local)
    ensures !ok ==> Ambiguous(t, local)
    ensures ok ==> Draws(t, psi, g, states)
  {
    hide Ambiguous, Gathered, EdgesOf;
    var edges: seq<map<Label, nat>> := [];
    ok := true;
    var ends := seq(|states|, i requires 0 <= i < |states| => EndingOf(t, psi, states[i]));
    g := Graph([], []);
    while |edges| < |states|
      invariant |edges| <= |states|
      invariant forall i: nat {:trigger edges[i]} :: i < |edges| ==> EdgesOf(t, local, states[i], edges[i])
    {
      StateMet(t, states, local, |edges|);
      var e;
      e, ok := ReadEdges(t, states, local, states[|edges|]);
      if !ok {
        return;
      }
      edges := edges + [e];
    }
    g := Graph(edges, ends);
    forall i: nat | i < |states| ensures NodeRead(t, states, local, states[i], edges[i]) {
      EdgesRead(t, states, local, i, edges[i]);
      assert edges[i] == edges[i];
    }
    DrawsAll(t, psi, states, local, g);
  }

  lemma StateMet(t: FST, states: seq<nat>, local: map<nat, nat>, i: nat)
    requires Gathered(t, states, local) && i < |states|
    ensures states[i] in local && local[states[i]] == i
  {
  }

  ghost predicate NodeRead(t: FST, states: seq<nat>, local: map<nat, nat>, q: nat, e: map<Label, nat>) {
    && (forall a {:trigger a in t.arcs} :: a in t.arcs && a.from == q ==> LabelOf(a) in e && e[LabelOf(a)] < |states| && states[e[LabelOf(a)]] == a.to)
    && (forall l {:trigger l in e} :: l in e ==> e[l] < |states| && exists a {:trigger ArcOn(t, a, q, l)} :: ArcOn(t, a, q, l))
  }

  lemma EdgesRead(t: FST, states: seq<nat>, local: map<nat, nat>, i: nat, e: map<Label, nat>)
    requires Gathered(t, states, local) && i < |states| && EdgesOf(t, local, states[i], e)
    ensures NodeRead(t, states, local, states[i], e)
  {
    hide IsReached;
    forall l | l in e ensures e[l] < |states| {
      var a :| ArcOn(t, a, states[i], l);
      assert a in t.arcs && a.to in local;
    }
    forall a | a in t.arcs && a.from == states[i] ensures e[LabelOf(a)] < |states| && states[e[LabelOf(a)]] == a.to {
      assert a.to in local;
    }
  }

  lemma DrawsAll(t: FST, psi: Option<map<nat, Word>>, states: seq<nat>, local: map<nat, nat>, g: Graph)
    requires |g.edges| == |g.ends| == |states| && forall i: nat :: i < |states| ==> g.ends[i] == EndingOf(t, psi, states[i])
    requires forall i: nat :: i < |states| ==> NodeRead(t, states, local, states[i], g.edges[i])
    ensures Draws(t, psi, g, states)
  {
    forall i: nat | i < |states| ensures NodeRead(t, states, local, states[i], g.edges[i]) && forall l :: l in g.edges[i] ==> g.edges[i][l] < |states| {
    }
    assert g.Valid();
    forall i: nat | i < |states| ensures NodeOk(t, g, states, i) {
      assert NodeRead(t, states, local, states[i], g.edges[i]);
    }
  }

  // ---------- reading words ----------

  /** Some path from s on w ends with e. */
  ghost predicate EndsWith(t: FST, psi: Option<map<nat, Word>>, s: nat, w: seq<Label>, e: Ending) {
    exists f {:trigger LabelRun(t, s, w, f)} :: LabelRun(t, s, w, f) && EndingOf(t, psi, f) == e
  }

  lemma EndsWithStep(t: FST, psi: Option<map<nat, Word>>, a: Arc, w: seq<Label>, e: Ending)
    requires a in t.arcs && EndsWith(t, psi, a.to, w, e)
    ensures EndsWith(t, psi, a.from, [LabelOf(a)] + w, e)
  {
    hide LabelRun, EndingOf;
    var f :| LabelRun(t, a.to, w, f) && EndingOf(t, psi, f) == e;
    LabelStep(t, a, w, f);
  }

  lemma EndsWithFirst(t: FST, psi: Option<map<nat, Word>>, s: nat, w: seq<Label>, e: Ending) returns (a: Arc)
    requires w != [] && EndsWith(t, psi, s, w, e)
    ensures ArcOn(t, a, s, w[0]) && EndsWith(t, psi, a.to, w[1..], e)
  {
    hide LabelRun, EndingOf;
    var f :| LabelRun(t, s, w, f) && EndingOf(t, psi, f) == e;
    a := FirstLabel(t, s, w, f);
    assert LabelRun(t, a.to, w[1..], f);
  }

  lemma EndsWithNow(t: FST, psi: Option<map<nat, Word>>, s: nat, e: Ending)
    ensures EndsWith(t, psi, s, [], e) <==> EndingOf(t, psi, s) == e
  {
    hide LabelRun, EndingOf;
    LabelRunEmpty(t, s, s);
    if EndingOf(t, psi, s) == e {
      assert LabelRun(t, s, [], s);
    }
    if EndsWith(t, psi, s, [], e) {
      var f :| LabelRun(t, s, [], f) && EndingOf(t, psi, f) == e;
      LabelRunEmpty(t, s, f);
    }
  }

  lemma NodeArc(t: FST, psi: Option<map<nat, Word>>, g: Graph, at: seq<nat>, i: nat, a: Arc)
    requires Draws(t, psi, g, at) && i < |at| && a in t.arcs && a.from == at[i]
    ensures LabelOf(a) in g.edges[i] && g.edges[i][LabelOf(a)] < |at| && at[g.edges[i][LabelOf(a)]] == a.to
  {
    assert NodeOk(t, g, at, i);
  }

  lemma ArcOfNode(t: FST, psi: Option<map<nat, Word>>, g: Graph, at: seq<nat>, i: nat, l: Label) returns (a: Arc)
    requires Draws(t, psi, g, at) && i < |at| && l in g.edges[i]
    ensures ArcOn(t, a, at[i], l) && g.edges[i][l] < |at| && at[g.edges[i][l]] == a.to
  {
    assert NodeOk(t, g, at, i);
    a :| ArcOn(t, a, at[i], l);
  }

  /** What can be observed in the drawing is what the paths of the automaton end with. */
  lemma {:induction false} ObserveDrawn(t: FST, psi: Option<map<nat, Word>>, g: Graph, at: seq<nat>, i: nat, w: seq<Label>, e: Ending)
    requires Draws(t, psi, g, at) && i < |at|
    ensures g.Valid() && |g.edges| == |at|
    ensures Observe(g, i, w) == Some(e) <==> EndsWith(t, psi, at[i], w, e)
    decreases w
  {
    hide EndsWith, NodeOk, EndingOf;
    if w == [] {
      EndsWithNow(t, psi, at[i], e);
    } else {
      if w[0] in g.edges[i] {
        var a := ArcOfNode(t, psi, g, at, i, w[0]);
        ObserveDrawn(t, psi, g, at, g.edges[i][w[0]], w[1..], e);
        if EndsWith(t, psi, a.to, w[1..], e) {
          EndsWithStep(t, psi, a, w[1..], e);
          assert [w[0]] + w[1..] == w;
        }
      }
      if EndsWith(t, psi, at[i], w, e) {
        var b := EndsWithFirst(t, psi, at[i], w, e);
        NodeArc(t, psi, g, at, i, b);
      }
    }
  }

  // ---------- first partition and merging ----------

  /** Number 0 for states that are not final, then one for each way of being final. */
  method Seed(g: Graph) returns (block: seq<nat>)
    requires g.Valid() && OneKindOfFinal(g)
    ensures |block| == |g.edges| && KeepsEndings(g, block) && Coarse(g, block)
  {
    hide Observe, Equivalent;
    var psiIds: map<Word, nat> := map[];
    block := [];
    while |block| < |g.ends|
      invariant |block| <= |g.ends|
      invariant forall i: nat {:trigger block[i]} :: i < |block| ==> SeedOf(g.ends[i], psiIds, block[i])
      invariant forall v, v' {:trigger psiIds[v], psiIds[v']} :: v in psiIds && v' in psiIds && psiIds[v] == psiIds[v'] ==> v == v'
      invariant forall v {:trigger psiIds[v]} :: v in psiIds ==> psiIds[v] < |psiIds|
    {
      match g.ends[|block|]
      case NotFinal => block := block + [0];
      case Final => block := block + [1];
      case FinalWith(v) =>
        if v !in psiIds {
          psiIds := psiIds[v := |psiIds|];
        }
        block := block + [1 + psiIds[v]];
    }
    forall i: nat, j: nat | i < |block| && j < |block| && Equivalent(g, i, j) ensures block[i] == block[j] {
      EquivalentEndings(g, i, j);
    }
    forall i: nat, j: nat | i < |block| && j < |block| && block[i] == block[j] ensures g.ends[i] == g.ends[j] {
      assert g.ends[i] in g.ends && g.ends[j] in g.ends;
    }
  }

  /** Final states either all have final outputs, or none has. */
  predicate OneKindOfFinal(g: Graph) {
    Final !in g.ends || forall e :: e in g.ends ==> !e.FinalWith?
  }

  predicate SeedOf(e: Ending, psiIds: map<Word, nat>, b: nat) {
    match e
    case NotFinal => b == 0
    case Final => b == 1
    case FinalWith(v) => v in psiIds && b == 1 + psiIds[v]
  }

  lemma EquivalentEndings(g: Graph, i: nat, j: nat)
    requires g.Valid() && i < |g.edges| && j < |g.edges| && Equivalent(g, i, j)
    ensures g.ends[i] == g.ends[j]
  {
    hide Observe;
    ObserveNow(g, i);
    ObserveNow(g, j);
    var e: seq<Label> := [];
    assert Observe(g, i, e) == Observe(g, j, e);
  }

  /** For each block, the first of its states. */
  method Representatives(block: seq<nat>) returns (rep: map<nat, nat>)
    ensures forall b {:trigger b in rep} :: b in rep ==> rep[b] < |block| && block[rep[b]] == b
    ensures forall i :: 0 <= i < |block| ==> block[i] in rep
  {
    rep := map[];
    for i := 0 to |block|
      invariant forall b {:trigger b in rep} :: b in rep ==> rep[b] < i && block[rep[b]] == b
      invariant forall j :: 0 <= j < i ==> block[j] in rep
    {
      if block[i] !in rep {
        rep := rep[block[i] := i];
      }
    }
  }

  /** Every block below n is written out from its representative. */
  ghost predicate Written(g: Graph, block: seq<nat>, rep: map<nat, nat>, n: nat, d: FST, psi: map<nat, Word>)
    requires g.Valid() && |block| == |g.edges| && forall b :: b in rep ==> rep[b] < |block|
  {
    && (forall a {:trigger a in d.arcs} :: a in d.arcs ==> ArcWritten(g, block, rep, n, a))
    && (forall b: nat, l: Label {:trigger WrittenLabel(d, b, l)} :: b < n && b in rep && l in g.edges[rep[b]] ==> WrittenLabel(d, b, l))
    && (forall b: nat {:trigger b in d.final} :: b in d.final <==> b < n && b in rep && g.ends[rep[b]] != NotFinal)
    && (forall b: nat {:trigger b in psi} :: b in psi <==> b < n && b in rep && g.ends[rep[b]].FinalWith?)
    && (forall b: nat {:trigger psi[b]} :: b in psi ==> g.ends[rep[b]].FinalWith? && psi[b] == g.ends[rep[b]].out)
  }

  ghost predicate WrittenLabel(d: FST, b: nat, l: Label) {
    exists a {:trigger ArcOn(d, a, b, l)} :: ArcOn(d, a, b, l)
  }

  ghost predicate ArcWritten(g: Graph, block: seq<nat>, rep: map<nat, nat>, n: nat, a: Arc)
    requires g.Valid() && |block| == |g.edges| && forall b :: b in rep ==> rep[b] < |block|
  {
    && a.from < n && a.from in rep && LabelOf(a) in g.edges[rep[a.from]]
    && a.to == block[g.edges[rep[a.from]][LabelOf(a)]]
  }

  lemma ArcAdded(g: Graph, block: seq<nat>, d: FST, d': FST, b: nat, l: Label, to: nat)
    requires d'.arcs == d.arcs + [Arc(b, l.0, l.1, to)]
    ensures forall c: nat, l' :: WrittenLabel(d, c, l') ==> WrittenLabel(d', c, l')
    ensures WrittenLabel(d', b, l)
  {
    assert d'.arcs[|d.arcs|] == Arc(b, l.0, l.1, to);
    assert ArcOn(d', Arc(b, l.0, l.1, to), b, l);
    forall c: nat, l' | WrittenLabel(d, c, l') ensures WrittenLabel(d', c, l') {
      var a :| ArcOn(d, a, c, l');
      assert ArcOn(d', a, c, l');
    }
  }

  lemma WrittenSame(d: FST, d': FST)
    requires d'.arcs == d.arcs
    ensures forall c: nat, l :: WrittenLabel(d, c, l) ==> WrittenLabel(d', c, l)
  {
    forall c: nat, l | WrittenLabel(d, c, l) ensures WrittenLabel(d', c, l) {
      var a :| ArcOn(d, a, c, l);
      assert ArcOn(d', a, c, l);
    }
  }

  /** The transitions, finality and final output of one block, read off its representative. */
  method WriteBlock(g: Graph, block: seq<nat>, rep: map<nat, nat>, b: nat, out: ExpandedFst, psi0: map<nat, Word>) returns (psi: map<nat, Word>)
    requires g.Valid() && |block| == |g.edges|
    requires forall b {:trigger b in rep} :: b in rep ==> rep[b] < |block| && block[rep[b]] == b
    requires b in rep && Written(g, block, rep, b, out.Value(), psi0)
    modifies out
    ensures Written(g, block, rep, b + 1, out.Value(), psi)
    ensures out.n == old(out.n) && out.initial == old(out.initial) && out.fEps == old(out.fEps)
  {
    hide WrittenLabel;
    var i := rep[b];
    psi := psi0;
    if g.ends[i] != NotFinal {
      out.AddFinal(b);
      if g.ends[i].FinalWith? {
        psi := psi[b := g.ends[i].out];
      }
    }
    WrittenSame(old(out.Value()), out.Value());
    var todo := g.edges[i].Keys;
    while todo != {}
      invariant todo <= g.edges[i].Keys
      invariant out.Value() == old(out.Value()).(arcs := out.arcs, final := old(out.final) + if g.ends[i] != NotFinal then {b} else {})
      invariant forall a {:trigger a in out.arcs} :: a in out.arcs ==> ArcWritten(g, block, rep, b + 1, a)
      invariant forall c: nat, l: Label {:trigger WrittenLabel(out.Value(), c, l)} ::
        (c < b && c in rep && l in g.edges[rep[c]]) || (c == b && l in g.edges[i].Keys - todo) ==> WrittenLabel(out.Value(), c, l)
    {
      var l :| l in todo;
      ghost var d := out.Value();
      out.AddTransition(b, l, block[g.edges[i][l]]);
      ArcAdded(g, block, d, out.Value(), b, l, block[g.edges[i][l]]);
      todo := todo - {l};
    }
  }

  /** All blocks are written, so the result is drawn by the same graph, each node at its block. */
  lemma WrittenDraws(t: FST, psi: Option<map<nat, Word>>, g: Graph, at: seq<nat>, block: seq<nat>, rep: map<nat, nat>, n: nat, d: FST, psiD: map<nat, Word>)
    requires Draws(t, psi, g, at) && |block| == |g.edges| && Stable(g, block) && KeepsEndings(g, block)
    requires forall b {:trigger b in rep} :: b in rep ==> rep[b] < |block| && block[rep[b]] == b
    requires forall i :: 0 <= i < |block| ==> block[i] in rep && block[i] < n
    requires Written(g, block, rep, n, d, psiD)
    ensures Draws(d, if psi.Some? then Some(psiD) else None, g, block)
  {
    hide WrittenLabel, KeepsEndings, NodeOk;
    var psiOut := if psi.Some? then Some(psiD) else None;
    forall i: nat | i < |block| ensures g.ends[i] == EndingOf(d, psiOut, block[i]) && NodeOk(d, g, block, i) {
      var r := rep[block[i]];
      assert block[r] == block[i];
      SameEnding(g, block, i, r);
      assert g.ends[i] == EndingOf(t, psi, at[i]);
      WrittenNode(g, block, rep, n, d, psiD, i);
    }
  }

  lemma SameEnding(g: Graph, block: seq<nat>, i: nat, j: nat)
    requires g.Valid() && |block| == |g.edges| && KeepsEndings(g, block) && i < |block| && j < |block| && block[i] == block[j]
    ensures g.ends[i] == g.ends[j]
  {
  }

  lemma WrittenNode(g: Graph, block: seq<nat>, rep: map<nat, nat>, n: nat, d: FST, psiD: map<nat, Word>, i: nat)
    requires g.Valid() && |block| == |g.edges| && Stable(g, block) && i < |block|
    requires forall b {:trigger b in rep} :: b in rep ==> rep[b] < |block| && block[rep[b]] == b
    requires block[i] in rep && block[i] < n && Written(g, block, rep, n, d, psiD)
    ensures NodeOk(d, g, block, i)
  {
    var r := rep[block[i]];
    assert block[r] == block[i];
    assert Alike(g, block, i, r);
    hide WrittenLabel, Written, Stable, Alike;
    forall a | a in d.arcs && a.from == block[i] ensures LabelOf(a) in g.edges[i] && block[g.edges[i][LabelOf(a)]] == a.to {
      WrittenFrom(g, block, rep, n, d, psiD, a);
      AlikeLabel(g, block, i, r, LabelOf(a));
    }
    forall l | l in g.edges[i] ensures exists a {:trigger ArcOn(d, a, block[i], l)} :: ArcOn(d, a, block[i], l) {
      AlikeLabel(g, block, i, r, l);
      WrittenTo(g, block, rep, n, d, psiD, block[i], l);
      WrittenArc(d, block[i], l);
    }
  }

  lemma AlikeLabel(g: Graph, block: seq<nat>, i: nat, j: nat, l: Label)
    requires g.Valid() && |block| == |g.edges| && i < |block| && j < |block| && Alike(g, block, i, j)
    ensures l in g.edges[i] <==> l in g.edges[j]
    ensures l in g.edges[i] ==> block[g.edges[i][l]] == block[g.edges[j][l]]
  {
  }

  lemma WrittenFrom(g: Graph, block: seq<nat>, rep: map<nat, nat>, n: nat, d: FST, psiD: map<nat, Word>, a: Arc)
    requires g.Valid() && |block| == |g.edges| && forall b {:trigger b in rep} :: b in rep ==> rep[b] < |block|
    requires Written(g, block, rep, n, d, psiD) && a in d.arcs
    ensures ArcWritten(g, block, rep, n, a)
  {
  }

  lemma WrittenTo(g: Graph, block: seq<nat>, rep: map<nat, nat>, n: nat, d: FST, psiD: map<nat, Word>, b: nat, l: Label)
    requires g.Valid() && |block| == |g.edges| && forall b {:trigger b in rep} :: b in rep ==> rep[b] < |block|
    requires Written(g, block, rep, n, d, psiD) && b < n && b in rep && l in g.edges[rep[b]]
    ensures WrittenLabel(d, b, l)
  {
    hide WrittenLabel;
  }

  lemma WrittenArc(d: FST, b: nat, l: Label)
    requires WrittenLabel(d, b, l)
    ensures exists a {:trigger ArcOn(d, a, b, l)} :: ArcOn(d, a, b, l)
  {
  }

  ghost predicate SomeInitial(t: FST, states: seq<nat>, block: seq<nat>, b: nat)
    requires |states| == |block|
  {
    exists i :: 0 <= i < |states| && states[i] in t.initial && block[i] == b
  }

  /** The merged automaton d with final outputs psiOut, and the partition of the states met that it comes from. */
  ghost predicate Merged(t: FST, psi: Option<map<nat, Word>>, g: Graph, states: seq<nat>, block: seq<nat>, d: FST, psiOut: Option<map<nat, Word>>) {
    && Draws(t, psi, g, states) && Draws(d, psiOut, g, block)
    && KeepsEndings(g, block) && Coarse(g, block) && Stable(g, block) && Used(block, d.n)
    && (forall b {:trigger b in d.initial} :: b in d.initial <==> SomeInitial(t, states, block, b))
    && (forall q {:trigger q in t.initial} :: q in t.initial ==> q in states)
    && (forall i :: 0 <= i < |states| ==> IsReached(t, states[i]))
    && (states != [] ==> states[0] in t.initial)
    && (forall v :: v in d.fEps <==> v in t.fEps)
  }

  /**
   * Merges the states that no label word separates. Gives up when a state met has two successors for one label.
   * `psi` holds the final outputs of a subsequential machine.
   */
  method Minimize(t: FST, psi: Option<map<nat, Word>>)
    returns (d: ExpandedFst, psiOut: Option<map<nat, Word>>, ok: bool, ghost g: Graph, ghost states: seq<nat>, ghost block: seq<nat>)
    requires psi.Some? ==> t.final <= psi.value.Keys
    ensures fresh(d)
    ensures ok <==> !AmbiguousReached(t)
    ensures ok ==> Merged(t, psi, g, states, block, d.Value(), psiOut)
  {
    hide Draws, Gathered, KeepsEndings, Coarse, Stable, IsReached, LocalOk, AmbiguousReached, Ambiguous, Used;
    d := new ExpandedFst();
    psiOut := None;
    var met, local := Gather(t);
    var graph;
    graph, ok := Draw(t, psi, met, local);
    g, states, block := graph, met, [];
    if !ok {
      AmbiguityIsReached(t, met, local);
      return;
    }
    DrawnIsDeterministic(t, psi, met, local, graph);
    DrawnKinds(t, psi, graph, met);
    var seed := Seed(graph);
    var blocks, blockCount := Refine(graph, seed);
    block := blocks;
    psiOut := WriteBlocks(t, psi, graph, met, blocks, blockCount, d);
    ghost var d0 := d.Value();
    MetFacts(t, met, local);
    var todo := t.initial;
    while todo != {}
      invariant todo <= t.initial && d.Value() == d0.(initial := d.initial)
      invariant forall b {:trigger b in d.initial} :: b in d.initial <==> exists q :: q in t.initial - todo && blocks[local[q]] == b
    {
      var q :| q in todo;
      todo := todo - {q};
      d.AddInitial(blocks[local[q]]);
    }
    CopyFEps(d, t.fEps);
    DrawsSame(d0, d.Value(), psiOut, graph, blocks);
    InitialBlocks(t, met, local, blocks, d.initial);
  }

  /** One state for each block. */
  method WriteBlocks(t: FST, psi: Option<map<nat, Word>>, g: Graph, ghost at: seq<nat>, block: seq<nat>, blockCount: nat, d: ExpandedFst)
    returns (psiOut: Option<map<nat, Word>>)
    requires Draws(t, psi, g, at) && |block| == |at| == |g.edges| && g.Valid() && Stable(g, block) && KeepsEndings(g, block) && Used(block, blockCount)
    requires d.Value() == FST(0, [], {}, {}, [])
    modifies d
    ensures d.n == blockCount && d.initial == {} && d.fEps == [] && Draws(d.Value(), psiOut, g, block)
  {
    hide Draws, KeepsEndings, Stable, Used;
    var rep := Representatives(block);
    UsedFacts(block, blockCount, rep);
    var psiD: map<nat, Word> := map[];
    d.n := blockCount;
    for b := 0 to blockCount
      invariant d.n == blockCount && d.initial == {} && d.fEps == []
      invariant Written(g, block, rep, b, d.Value(), psiD)
    {
      psiD := WriteBlock(g, block, rep, b, d, psiD);
    }
    psiOut := if psi.Some? then Some(psiD) else None;
    WrittenDraws(t, psi, g, at, block, rep, blockCount, d.Value(), psiD);
  }

  lemma InitialBlocks(t: FST, states: seq<nat>, local: map<nat, nat>, block: seq<nat>, initial: set<nat>)
    requires Gathered(t, states, local) && |block| == |states|
    requires forall q :: q in t.initial ==> q in local && local[q] < |block|
    requires forall b {:trigger b in initial} :: b in initial <==> exists q :: q in t.initial && block[local[q]] == b
    ensures forall b {:trigger b in initial} :: b in initial <==> SomeInitial(t, states, block, b)
  {
    hide IsReached;
    forall b ensures b in initial <==> SomeInitial(t, states, block, b) {
      if b in initial {
        var q :| q in t.initial && block[local[q]] == b;
        assert q in local && states[local[q]] == q;
      }
      if SomeInitial(t, states, block, b) {
        var i :| 0 <= i < |states| && states[i] in t.initial && block[i] == b;
        assert local[states[i]] == i;
      }
    }
  }

  lemma MetFacts(t: FST, states: seq<nat>, local: map<nat, nat>)
    requires Gathered(t, states, local)
    ensures forall q {:trigger q in t.initial} :: q in t.initial ==> q in local && local[q] < |states| && q in states
    ensures forall i :: 0 <= i < |states| ==> IsReached(t, states[i])
    ensures states != [] ==> states[0] in t.initial
  {
    hide IsReached;
    forall q | q in t.initial ensures q in states {
      assert q in local && states[local[q]] == q;
    }
  }

  lemma DrawsSame(d: FST, d': FST, psi: Option<map<nat, Word>>, g: Graph, at: seq<nat>)
    requires Draws(d, psi, g, at) && d'.arcs == d.arcs && d'.final == d.final
    ensures Draws(d', psi, g, at)
  {
    forall i: nat | i < |at| ensures NodeOk(d', g, at, i) && g.ends[i] == EndingOf(d', psi, at[i]) {
      assert NodeOk(d, g, at, i);
      forall l | l in g.edges[i] ensures exists a {:trigger ArcOn(d', a, at[i], l)} :: ArcOn(d', a, at[i], l) {
        var a :| ArcOn(d, a, at[i], l);
        assert ArcOn(d', a, at[i], l);
      }
    }
  }

  lemma UsedFacts(block: seq<nat>, n: nat, rep: map<nat, nat>)
    requires Used(block, n)
    requires forall i :: 0 <= i < |block| ==> block[i] in rep
    ensures forall i :: 0 <= i < |block| ==> block[i] < n
    ensures forall b :: 0 <= b < n ==> b in rep
  {
    forall i | 0 <= i < |block| ensures block[i] < n {
      assert block[i] in Range(block);
    }
    forall b | 0 <= b < n ensures b in rep {
      assert b in Range(block);
    }
  }

  lemma DrawnKinds(t: FST, psi: Option<map<nat, Word>>, g: Graph, at: seq<nat>)
    requires Draws(t, psi, g, at) && (psi.Some? ==> t.final <= psi.value.Keys)
    ensures OneKindOfFinal(g) && g.Valid() && |g.edges| == |at|
  {
    hide NodeOk;
    forall e | e in g.ends ensures psi.Some? ==> e != Final {
      var i: nat :| i < |g.ends| && g.ends[i] == e;
      assert g.ends[i] == EndingOf(t, psi, at[i]);
    }
    forall e | e in g.ends ensures psi.None? ==> !e.FinalWith? {
      var i: nat :| i < |g.ends| && g.ends[i] == e;
      assert g.ends[i] == EndingOf(t, psi, at[i]);
    }
  }

  // ---------- which inputs are accepted ----------

  /** Some state met from the initial ones has two successors for one label. */
  ghost predicate AmbiguousReached(t: FST) {
    exists a, b :: a in t.arcs && b in t.arcs && IsReached(t, a.from) && a.from == b.from && LabelOf(a) == LabelOf(b) && a.to != b.to
  }

  lemma AmbiguityIsReached(t: FST, states: seq<nat>, local: map<nat, nat>)
    requires Gathered(t, states, local) && Ambiguous(t, local)
    ensures AmbiguousReached(t)
  {
    hide IsReached;
    var a, b :| a in t.arcs && b in t.arcs && a.from in local && a.from == b.from && LabelOf(a) == LabelOf(b) && a.to != b.to;
    assert IsReached(t, a.from);
  }

  lemma {:induction false} ReachedIsMet(t: FST, states: seq<nat>, local: map<nat, nat>, s: nat, w: seq<Label>, q: nat)
    requires Gathered(t, states, local) && s in t.initial && LabelRun(t, s, w, q)
    ensures q in local
    decreases |w|
  {
    hide IsReached, LabelRun;
    if w == [] {
      LabelRunEmpty(t, s, q);
    } else {
      assert w == w[..|w| - 1] + [w[|w| - 1]];
      var a := LastLabel(t, s, w[..|w| - 1], w[|w| - 1], q);
      ReachedIsMet(t, states, local, s, w[..|w| - 1], a.from);
    }
  }

  lemma DrawnIsDeterministic(t: FST, psi: Option<map<nat, Word>>, states: seq<nat>, local: map<nat, nat>, g: Graph)
    requires Gathered(t, states, local) && Draws(t, psi, g, states)
    ensures !AmbiguousReached(t)
  {
    hide LabelRun, Draws;
    if a, b :| a in t.arcs && b in t.arcs && IsReached(t, a.from) && a.from == b.from && LabelOf(a) == LabelOf(b) && a.to != b.to {
      var s, w :| s in t.initial && LabelRun(t, s, w, a.from);
      ReachedIsMet(t, states, local, s, w, a.from);
      NodeArc(t, psi, g, states, local[a.from], a);
      NodeArc(t, psi, g, states, local[b.from], b);
    }
  }

  // ---------- what minimization promises ----------

  /** No label word, by being readable or by the way it ends, separates p from q. */
  ghost predicate Inseparable(t: FST, psi: Option<map<nat, Word>>, p: nat, q: nat) {
    forall w, e {:trigger EndsWith(t, psi, p, w, e)} {:trigger EndsWith(t, psi, q, w, e)} :: EndsWith(t, psi, p, w, e) <==> EndsWith(t, psi, q, w, e)
  }

  lemma EquivalentIsInseparable(t: FST, psi: Option<map<nat, Word>>, g: Graph, at: seq<nat>, i: nat, j: nat)
    requires Draws(t, psi, g, at) && i < |at| && j < |at|
    ensures g.Valid() && |g.edges| == |at|
    ensures Equivalent(g, i, j) <==> Inseparable(t, psi, at[i], at[j])
  {
    DrawsValid(t, psi, g, at);
    hide Draws, EndsWith, Observe;
    if Equivalent(g, i, j) {
      forall w, e ensures EndsWith(t, psi, at[i], w, e) <==> EndsWith(t, psi, at[j], w, e) {
        ObserveDrawn(t, psi, g, at, i, w, e);
        ObserveDrawn(t, psi, g, at, j, w, e);
        assert Observe(g, i, w) == Observe(g, j, w);
      }
    }
    if Inseparable(t, psi, at[i], at[j]) {
      forall w ensures Observe(g, i, w) == Observe(g, j, w) {
        if Observe(g, i, w).Some? {
          InseparableObserve(t, psi, g, at, i, j, w, Observe(g, i, w).value);
        }
        if Observe(g, j, w).Some? {
          InseparableObserve(t, psi, g, at, i, j, w, Observe(g, j, w).value);
        }
      }
    }
  }

  lemma DrawsValid(t: FST, psi: Option<map<nat, Word>>, g: Graph, at: seq<nat>)
    requires Draws(t, psi, g, at)
    ensures g.Valid() && |g.edges| == |at|
  {
  }

  lemma InseparableObserve(t: FST, psi: Option<map<nat, Word>>, g: Graph, at: seq<nat>, i: nat, j: nat, w: seq<Label>, e: Ending)
    requires Draws(t, psi, g, at) && i < |at| && j < |at| && Inseparable(t, psi, at[i], at[j])
    ensures g.Valid() && |g.edges| == |at|
    ensures Observe(g, i, w) == Some(e) <==> Observe(g, j, w) == Some(e)
  {
    hide Draws, EndsWith, Observe;
    ObserveDrawn(t, psi, g, at, i, w, e);
    ObserveDrawn(t, psi, g, at, j, w, e);
    assert EndsWith(t, psi, at[i], w, e) <==> EndsWith(t, psi, at[j], w, e);
  }

  lemma MergedFacts(t: FST, psi: Option<map<nat, Word>>, g: Graph, states: seq<nat>, block: seq<nat>, d: FST, psiOut: Option<map<nat, Word>>)
    requires Merged(t, psi, g, states, block, d, psiOut)
    ensures g.Valid() && |g.edges| == |states| == |block|
    ensures Draws(t, psi, g, states) && Draws(d, psiOut, g, block)
    ensures KeepsEndings(g, block) && Coarse(g, block) && Stable(g, block)
  {
  }

  /** Two states met get one block exactly when no label word separates them: the coarsest bisimulation. */
  lemma MergedIffInseparable(t: FST, psi: Option<map<nat, Word>>, g: Graph, states: seq<nat>, block: seq<nat>, d: FST, psiOut: Option<map<nat, Word>>, i: nat, j: nat)
    requires Merged(t, psi, g, states, block, d, psiOut) && i < |states| && j < |states|
    ensures |block| == |states|
    ensures block[i] == block[j] <==> Inseparable(t, psi, states[i], states[j])
  {
    MergedFacts(t, psi, g, states, block, d, psiOut);
    hide Merged, Draws, KeepsEndings, Coarse, Stable, Equivalent, Inseparable;
    SameBlockIff(g, block, i, j);
    EquivalentIsInseparable(t, psi, g, states, i, j);
  }

  /** The states of the result are pairwise separable, so a second run merges nothing. */
  lemma ResultIsReduced(t: FST, psi: Option<map<nat, Word>>, g: Graph, states: seq<nat>, block: seq<nat>, d: FST, psiOut: Option<map<nat, Word>>, b: nat, c: nat)
    requires Merged(t, psi, g, states, block, d, psiOut) && b < d.n && c < d.n && b != c
    ensures !Inseparable(d, psiOut, b, c)
  {
    MergedFacts(t, psi, g, states, block, d, psiOut);
    hide Draws, KeepsEndings, Coarse, Stable, Equivalent, Inseparable;
    assert b in Range(block) && c in Range(block);
    var i: nat :| i < |block| && block[i] == b;
    var j: nat :| j < |block| && block[j] == c;
    SameBlockIff(g, block, i, j);
    EquivalentIsInseparable(d, psiOut, g, block, i, j);
  }

  ghost predicate LanguageEnds(t: FST, psi: Option<map<nat, Word>>, w: seq<Label>, e: Ending) {
    exists s {:trigger EndsWith(t, psi, s, w, e)} :: s in t.initial && EndsWith(t, psi, s, w, e)
  }

  /** The result reads exactly the label words of the input, with the same endings and final outputs. */
  lemma MergedKeepsLanguage(t: FST, psi: Option<map<nat, Word>>, g: Graph, states: seq<nat>, block: seq<nat>, d: FST, psiOut: Option<map<nat, Word>>, w: seq<Label>, e: Ending)
    requires Merged(t, psi, g, states, block, d, psiOut)
    ensures LanguageEnds(t, psi, w, e) <==> LanguageEnds(d, psiOut, w, e)
  {
    MergedFacts(t, psi, g, states, block, d, psiOut);
    hide Draws, KeepsEndings, Coarse, Stable, EndsWith, Observe, IsReached, Used;
    if LanguageEnds(t, psi, w, e) {
      var s :| s in t.initial && EndsWith(t, psi, s, w, e);
      var i: nat :| i < |states| && states[i] == s;
      ObserveDrawn(t, psi, g, states, i, w, e);
      ObserveDrawn(d, psiOut, g, block, i, w, e);
      assert SomeInitial(t, states, block, block[i]);
    }
    if LanguageEnds(d, psiOut, w, e) {
      var b :| b in d.initial && EndsWith(d, psiOut, b, w, e);
      assert SomeInitial(t, states, block, b);
      var i: nat :| i < |states| && states[i] in t.initial && block[i] == b;
      ObserveDrawn(t, psi, g, states, i, w, e);
      ObserveDrawn(d, psiOut, g, block, i, w, e);
    }
  }

  lemma LanguageEndsFinal(t: FST, psi: Option<map<nat, Word>>, w: seq<Label>)
    ensures LabelLanguage(t, w) <==> exists e {:trigger LanguageEnds(t, psi, w, e)} :: e != NotFinal && LanguageEnds(t, psi, w, e)
  {
    hide LabelRun;
    if LabelLanguage(t, w) {
      var s :| s in t.initial && AcceptsLabels(t, s, w);
      var f :| f in t.final && LabelRun(t, s, w, f);
      assert EndsWith(t, psi, s, w, EndingOf(t, psi, f));
      assert LanguageEnds(t, psi, w, EndingOf(t, psi, f));
    }
    if e :| e != NotFinal && LanguageEnds(t, psi, w, e) {
      var s :| s in t.initial && EndsWith(t, psi, s, w, e);
      var f :| LabelRun(t, s, w, f) && EndingOf(t, psi, f) == e;
      assert AcceptsLabels(t, s, w);
    }
  }

  lemma MergedKeepsLabels(t: FST, psi: Option<map<nat, Word>>, g: Graph, states: seq<nat>, block: seq<nat>, d: FST, psiOut: Option<map<nat, Word>>)
    requires Merged(t, psi, g, states, block, d, psiOut)
    ensures SameLabelLanguage(t, d) && forall v :: v in d.fEps <==> v in t.fEps
  {
    hide LanguageEnds, LabelLanguage, Draws, KeepsEndings, Coarse, Stable, Used, IsReached;
    forall w: seq<Label> ensures LabelLanguage(t, w) <==> LabelLanguage(d, w) {
      LanguageEndsFinal(t, psi, w);
      LanguageEndsFinal(d, psiOut, w);
      forall e ensures LanguageEnds(t, psi, w, e) <==> LanguageEnds(d, psiOut, w, e) {
        MergedKeepsLanguage(t, psi, g, states, block, d, psiOut, w, e);
      }
    }
  }

  /** The first initial state is in block 0. */
  lemma FirstBlockIsInitial(t: FST, psi: Option<map<nat, Word>>, g: Graph, states: seq<nat>, block: seq<nat>, d: FST, psiOut: Option<map<nat, Word>>)
    requires Merged(t, psi, g, states, block, d, psiOut) && t.initial != {}
    ensures |block| == |states| > 0 && states[0] in t.initial && block[0] == 0 && 0 in d.initial
  {
    hide KeepsEndings, Coarse, Stable, IsReached;
    var q :| q in t.initial;
    assert q in states;
    assert SomeInitial(t, states, block, 0) by {
      assert states[0] in t.initial && block[0] == 0;
    }
  }
}
