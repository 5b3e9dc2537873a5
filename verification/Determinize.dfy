/** Pseudo-determinization by subsets, reversal, and minimization by double reversal. */
module Determinize {
  import opened Counting
  import opened Words
  import opened Expanded
  import opened LabelAutomata

  /** The builder interface of the real-time transducer. */
  class ExpandedFst {
    var n: nat
    var arcs: seq<Arc>
    var initial: set<nat>
    var final: set<nat>
    var fEps: seq<Word>

    function Value(): FST
      reads this
    {
      FST(n, arcs, initial, final, fEps)
    }

    constructor ()
      ensures Value() == FST(0, [], {}, {}, [])
    {
      n, arcs, initial, final, fEps := 0, [], {}, {}, [];
    }

    method NewState() returns (q: nat)
      modifies this
      ensures q == old(n) && Value() == old(Value()).(n := q + 1)
    {
      q := n;
      n := n + 1;
    }

    method AddTransition(from: nat, on: Label, to: nat)
      modifies this
      ensures Value() == old(Value()).(arcs := old(arcs) + [Arc(from, on.0, on.1, to)])
    {
      arcs := arcs + [Arc(from, on.0, on.1, to)];
    }

    method AddInitial(q: nat)
      modifies this
      ensures Value() == old(Value()).(initial := old(initial) + {q})
    {
      initial := initial + {q};
    }

    method AddFinal(q: nat)
      modifies this
      ensures Value() == old(Value()).(final := old(final) + {q})
    {
      final := final + {q};
    }

    /** Keeps each output of the empty word once. */
    method AddFEps(v: Word)
      modifies this
      ensures Value() == old(Value()).(fEps := if v in old(fEps) then old(fEps) else old(fEps) + [v])
    {
      for i := 0 to |fEps|
        invariant v !in fEps[..i]
      {
        if fEps[i] == v {
          return;
        }
      }
      fEps := fEps + [v];
    }
  }

  /** The outputs of the empty word are carried over. */
  method CopyFEps(out: ExpandedFst, outputs: seq<Word>)
    requires out.fEps == []
    modifies out
    ensures out.Value() == old(out.Value()).(fEps := out.fEps)
    ensures forall v :: v in out.fEps <==> v in outputs
  {
    for i := 0 to |outputs|
      invariant out.Value() == old(out.Value()).(fEps := out.fEps)
      invariant forall v :: v in out.fEps <==> v in outputs[..i]
    {
      out.AddFEps(outputs[i]);
    }
  }

  // ---------- the subset automaton ----------

  predicate Hits(b: set<nat>, final: set<nat>) {
    !(b !! final)
  }

  /** The subset construction: the states are the subsets in `sets`, met in this order. */
  ghost predicate Determinized(t: FST, d: FST, sets: seq<set<nat>>) {
    && d.n == |sets| >= 1
    && sets[0] == t.initial && d.initial == {0}
    && (forall i, j :: 0 <= i < j < |sets| ==> sets[i] != sets[j])
    && (forall i: nat {:trigger i in d.final} :: i in d.final <==> i < |sets| && Hits(sets[i], t.final))
    && (forall a {:trigger a in d.arcs} :: a in d.arcs ==> ArcRight(t, a, sets))
    && (forall i: nat, l: Label {:trigger Post(t, sets[i], l)} :: i < |sets| && Post(t, sets[i], l) != {} ==> HasArc(d, i, l))
    && (forall i: nat {:trigger SubsetOk(t, i, sets[i])} :: i < |sets| ==> SubsetOk(t, i, sets[i]))
    && (forall v :: v in d.fEps <==> v in t.fEps)
  }

  ghost predicate ArcRight(t: FST, a: Arc, sets: seq<set<nat>>) {
    a.from < |sets| && a.to < |sets| && sets[a.to] == Post(t, sets[a.from], LabelOf(a)) && sets[a.to] != {}
  }

  ghost predicate HasArc(d: FST, i: nat, l: Label) {
    exists a {:trigger ArcOn(d, a, i, l)} :: ArcOn(d, a, i, l)
  }

  /** A subset is met by reading some label word; none but the first is empty. */
  ghost predicate SubsetOk(t: FST, i: nat, b: set<nat>) {
    (i > 0 ==> b != {}) && exists w {:trigger PostWord(t, t.initial, w)} :: b == PostWord(t, t.initial, w)
  }

  // ---------- building it ----------

  ghost predicate Indexed(sets: seq<set<nat>>, stateMap: map<set<nat>, nat>) {
    && |stateMap| == |sets|
    && (forall b {:trigger b in stateMap} :: b in stateMap ==> stateMap[b] < |sets| && sets[stateMap[b]] == b)
    && (forall i: nat {:trigger sets[i]} :: i < |sets| ==> sets[i] in stateMap && stateMap[sets[i]] == i)
  }

  ghost predicate Partial(t: FST, d: FST, sets: seq<set<nat>>, stateMap: map<set<nat>, nat>) {
    && Indexed(sets, stateMap)
    && d.n == |sets|
    && (forall i: nat {:trigger i in d.final} :: i in d.final <==> i < |sets| && Hits(sets[i], t.final))
    && (forall a {:trigger a in d.arcs} :: a in d.arcs ==> ArcRight(t, a, sets))
    && (forall i: nat {:trigger SubsetOk(t, i, sets[i])} :: i < |sets| ==> SubsetOk(t, i, sets[i]))
  }

  ghost predicate RowDone(t: FST, d: FST, i: nat, b: set<nat>) {
    forall l: Label {:trigger Post(t, b, l)} :: Post(t, b, l) != {} ==> HasArc(d, i, l)
  }

  /** The number of the subset b, which is new, or found in the map. */
  method GetStateId(t: FST, dfa: ExpandedFst, b: set<nat>, sets0: seq<set<nat>>, stateMap0: map<set<nat>, nat>)
    returns (sets: seq<set<nat>>, stateMap: map<set<nat>, nat>, id: nat, isNew: bool)
    requires dfa.n == |sets0|
    modifies dfa
    ensures isNew == (b !in stateMap0)
    ensures !isNew ==> sets == sets0 && stateMap == stateMap0 && id == stateMap0[b] && dfa.Value() == old(dfa.Value())
    ensures isNew ==> sets == sets0 + [b] && stateMap == stateMap0[b := |sets0|] && id == |sets0|
    ensures isNew ==> dfa.Value() == old(dfa.Value()).(n := id + 1, final := old(dfa.final) + if Hits(b, t.final) then {id} else {})
  {
    sets, stateMap, isNew := sets0, stateMap0, b !in stateMap0;
    if !isNew {
      id := stateMap[b];
      return;
    }
    id := dfa.NewState();
    var todo := b;
    while todo != {}
      invariant todo <= b && (b - todo) !! t.final
      invariant dfa.Value() == old(dfa.Value()).(n := id + 1)
    {
      var q :| q in todo;
      assert b - (todo - {q}) == (b - todo) + {q};
      todo := todo - {q};
      if q in t.final {
        dfa.AddFinal(id);
        break;
      }
    }
    if !Hits(b, t.final) {
      assert old(dfa.final) + {} == dfa.final;
    } else if todo == {} && dfa.final == old(dfa.final) {
      assert b - todo == b;
    }
    sets, stateMap := sets + [b], stateMap[b := id];
  }

  /** The transitions of the states in b, grouped by label. */
  method Group(t: FST, b: set<nat>) returns (groups: map<Label, set<nat>>)
    ensures forall l: Label {:trigger l in groups} :: l in groups <==> Post(t, b, l) != {}
    ensures forall l: Label {:trigger groups[l]} :: l in groups ==> groups[l] == Post(t, b, l)
  {
    hide Post;
    groups := map[];
    var todo := b;
    NothingGrouped(t, b);
    while todo != {}
      invariant todo <= b
      invariant Grouped(t, groups, b - todo, {}, 0)
    {
      var q :| q in todo;
      ghost var before := b - todo;
      StartRow(t, groups, before, q);
      for k := 0 to |t.arcs|
        invariant Grouped(t, groups, before, {q}, k)
      {
        GroupOne(t, groups, before, q, k);
        var a := t.arcs[k];
        if a.from == q {
          var l := LabelOf(a);
          groups := groups[l := (if l in groups then groups[l] else {}) + {a.to}];
        }
      }
      EndRow(t, groups, before, q);
      assert b - (todo - {q}) == before + {q};
      todo := todo - {q};
    }
    assert b - todo == b;
    GroupedAll(t, groups, b);
  }

  /** All arcs from b and the first n arcs of the list as far as they start in c. */
  ghost function PostPart(t: FST, b: set<nat>, c: set<nat>, n: nat, l: Label): set<nat>
    requires n <= |t.arcs|
  {
    Post(t, b, l) + set i | 0 <= i < n && t.arcs[i].from in c && LabelOf(t.arcs[i]) == l :: t.arcs[i].to
  }

  ghost predicate Grouped(t: FST, groups: map<Label, set<nat>>, b: set<nat>, c: set<nat>, n: nat) {
    && n <= |t.arcs|
    && forall l: Label {:trigger l in groups} :: GroupIs(groups, l, PostPart(t, b, c, n, l))
  }

  ghost predicate GroupIs(groups: map<Label, set<nat>>, l: Label, s: set<nat>) {
    if l in groups then groups[l] == s != {} else s == {}
  }

  lemma GroupedAt(t: FST, groups: map<Label, set<nat>>, b: set<nat>, c: set<nat>, n: nat, l: Label)
    requires Grouped(t, groups, b, c, n)
    ensures GroupIs(groups, l, PostPart(t, b, c, n, l))
  {
    hide PostPart;
    assert l in groups || l !in groups;
  }

  lemma NothingGrouped(t: FST, b: set<nat>)
    ensures b - b == {} && Grouped(t, map[], b - b, {}, 0)
  {
    forall l: Label ensures GroupIs(map[], l, PostPart(t, b - b, {}, 0, l)) {
      assert PostPart(t, b - b, {}, 0, l) == {};
    }
  }

  lemma StartRow(t: FST, groups: map<Label, set<nat>>, b: set<nat>, q: nat)
    requires Grouped(t, groups, b, {}, 0)
    ensures Grouped(t, groups, b, {q}, 0)
  {
    hide Post;
    forall l: Label ensures GroupIs(groups, l, PostPart(t, b, {q}, 0, l)) {
      GroupedAt(t, groups, b, {}, 0, l);
      assert PostPart(t, b, {}, 0, l) == PostPart(t, b, {q}, 0, l);
    }
  }

  lemma EndRow(t: FST, groups: map<Label, set<nat>>, b: set<nat>, q: nat)
    requires Grouped(t, groups, b, {q}, |t.arcs|)
    ensures Grouped(t, groups, b + {q}, {}, 0)
  {
    forall l: Label ensures GroupIs(groups, l, PostPart(t, b + {q}, {}, 0, l)) {
      GroupedAt(t, groups, b, {q}, |t.arcs|, l);
      assert PostPart(t, b, {q}, |t.arcs|, l) == PostPart(t, b + {q}, {}, 0, l);
    }
  }

  lemma GroupOne(t: FST, groups: map<Label, set<nat>>, b: set<nat>, q: nat, k: nat)
    requires k < |t.arcs| && Grouped(t, groups, b, {q}, k)
    ensures
      var a := t.arcs[k];
      var l := LabelOf(a);
      Grouped(t, if a.from == q then groups[l := (if l in groups then groups[l] else {}) + {a.to}] else groups, b, {q}, k + 1)
  {
    hide Post;
    var a := t.arcs[k];
    var l := LabelOf(a);
    var groups' := if a.from == q then groups[l := (if l in groups then groups[l] else {}) + {a.to}] else groups;
    var next: nat := k + 1;
    forall l': Label ensures GroupIs(groups', l', PostPart(t, b, {q}, next, l')) {
      PostPartStep(t, b, q, k, l');
      GroupedAt(t, groups, b, {q}, k, l');
    }
  }

  lemma PostPartStep(t: FST, b: set<nat>, q: nat, k: nat, l: Label)
    requires k < |t.arcs|
    ensures PostPart(t, b, {q}, k + 1, l) ==
      PostPart(t, b, {q}, k, l) + if t.arcs[k].from == q && LabelOf(t.arcs[k]) == l then {t.arcs[k].to} else {}
  {
    hide Post;
    var more := PostPart(t, b, {q}, k + 1, l);
    var less := PostPart(t, b, {q}, k, l);
    forall x | x in more ensures x in less || (t.arcs[k].from == q && LabelOf(t.arcs[k]) == l && x == t.arcs[k].to) {
      if x !in Post(t, b, l) {
        var i :| 0 <= i < k + 1 && t.arcs[i].from in {q} && LabelOf(t.arcs[i]) == l && x == t.arcs[i].to;
      }
    }
  }

  lemma GroupedAll(t: FST, groups: map<Label, set<nat>>, b: set<nat>)
    requires Grouped(t, groups, b, {}, 0)
    ensures forall l: Label {:trigger l in groups} :: l in groups <==> Post(t, b, l) != {}
    ensures forall l: Label {:trigger groups[l]} :: l in groups ==> groups[l] == Post(t, b, l)
  {
    hide Post;
    forall l: Label ensures l in groups <==> Post(t, b, l) != {} {
      GroupedAt(t, groups, b, {}, 0, l);
      assert PostPart(t, b, {}, 0, l) == Post(t, b, l);
    }
    forall l: Label | l in groups ensures groups[l] == Post(t, b, l) {
      GroupedAt(t, groups, b, {}, 0, l);
      assert PostPart(t, b, {}, 0, l) == Post(t, b, l);
    }
  }

  ghost function AllSubsets(t: FST): set<set<nat>> {
    set b: set<nat> | b <= t.initial + Targets(t)
  }

  function Targets(t: FST): set<nat> {
    set a | a in t.arcs :: a.to
  }

  lemma PostTargets(t: FST, b: set<nat>, l: Label)
    ensures Post(t, b, l) <= Targets(t)
  {
  }

  lemma FewSubsets(t: FST, d: FST, sets: seq<set<nat>>, stateMap: map<set<nat>, nat>)
    requires Partial(t, d, sets, stateMap)
    ensures |sets| <= |AllSubsets(t)|
  {
    hide Post, PostWord, Targets, ArcRight;
    forall b | b in stateMap.Keys ensures b in AllSubsets(t) {
      var i := stateMap[b];
      assert SubsetOk(t, i, sets[i]);
      var w :| b == PostWord(t, t.initial, w);
      PostWordTargets(t, w);
    }
    SubsetSize(stateMap.Keys, AllSubsets(t));
  }

  lemma PostWordTargets(t: FST, w: seq<Label>)
    ensures PostWord(t, t.initial, w) <= t.initial + Targets(t)
  {
    hide Post, Targets;
    if w != [] {
      var front := w[..|w| - 1];
      assert w == front + [w[|w| - 1]];
      PostWordSnoc(t, t.initial, front, w[|w| - 1]);
      PostTargets(t, PostWord(t, t.initial, front), w[|w| - 1]);
    }
  }

  ghost predicate Waiting(queue: seq<nat>, rows: set<nat>, n: nat) {
    && (forall i :: 0 <= i < |queue| ==> queue[i] < n)
    && (forall i: nat {:trigger i in rows} {:trigger i in queue} :: i < n ==> i in rows || i in queue)
    && (forall i {:trigger i in rows} :: i in rows ==> i < n)
  }

  ghost predicate RowsDone(t: FST, d: FST, sets: seq<set<nat>>, rows: set<nat>) {
    forall i: nat {:trigger i in rows} :: i in rows ==> i < |sets| && RowDone(t, d, i, sets[i])
  }

  ghost predicate LabelsDone(d: FST, i: nat, labels: set<Label>) {
    forall l {:trigger l in labels} :: l in labels ==> HasArc(d, i, l)
  }

  /** A subset reached from a subset by a label. */
  lemma PartialState(t: FST, d: FST, sets: seq<set<nat>>, stateMap: map<set<nat>, nat>, i: nat, l: Label, b: set<nat>, d': FST)
    requires Partial(t, d, sets, stateMap) && i < |sets| && b == Post(t, sets[i], l) != {} && b !in stateMap
    requires d' == d.(n := |sets| + 1, final := d.final + if Hits(b, t.final) then {|sets|} else {})
    ensures Partial(t, d', sets + [b], stateMap[b := |sets|])
  {
    hide Post, PostWord, Hits;
    assert SubsetOk(t, i, sets[i]);
    var w :| sets[i] == PostWord(t, t.initial, w);
    PostWordSnoc(t, t.initial, w, l);
    assert b == PostWord(t, t.initial, w + [l]);
    var sets' := sets + [b];
    forall j: nat | j < |sets'| ensures SubsetOk(t, j, sets'[j]) {
      if j < |sets| {
        assert SubsetOk(t, j, sets[j]);
      }
    }
    forall a | a in d'.arcs ensures ArcRight(t, a, sets') {
      assert ArcRight(t, a, sets);
    }
  }

  lemma PartialArc(t: FST, d: FST, sets: seq<set<nat>>, stateMap: map<set<nat>, nat>, i: nat, l: Label, j: nat, d': FST)
    requires Partial(t, d, sets, stateMap) && i < |sets| && j < |sets| && sets[j] == Post(t, sets[i], l) != {}
    requires d' == d.(arcs := d.arcs + [Arc(i, l.0, l.1, j)])
    ensures Partial(t, d', sets, stateMap) && HasArc(d', i, l)
  {
    hide Post, PostWord, Hits, SubsetOk;
    var a := Arc(i, l.0, l.1, j);
    assert ArcOn(d', a, i, l) by {
      assert d'.arcs[|d.arcs|] == a;
    }
    forall c | c in d'.arcs ensures ArcRight(t, c, sets) {
      if c in d.arcs {
        assert ArcRight(t, c, sets);
      }
    }
  }

  lemma ArcsKept(d: FST, d': FST, i: nat, l: Label)
    requires HasArc(d, i, l) && d.arcs <= d'.arcs
    ensures HasArc(d', i, l)
  {
    var a :| ArcOn(d, a, i, l);
    assert ArcOn(d', a, i, l);
  }

  lemma RowsKept(t: FST, d: FST, d': FST, sets: seq<set<nat>>, sets': seq<set<nat>>, rows: set<nat>)
    requires RowsDone(t, d, sets, rows) && d.arcs <= d'.arcs && sets <= sets'
    ensures RowsDone(t, d', sets', rows)
  {
    hide Post, HasArc;
    forall i: nat | i in rows ensures i < |sets'| && RowDone(t, d', i, sets'[i]) {
      assert RowDone(t, d, i, sets[i]);
      forall l: Label | Post(t, sets[i], l) != {} ensures HasArc(d', i, l) {
        ArcsKept(d, d', i, l);
      }
    }
  }

  /** Expands one subset: a transition for each label that leads anywhere. */
  method Expand(t: FST, dfa: ExpandedFst, current: nat, groups: map<Label, set<nat>>, ghost rows: set<nat>,
                sets0: seq<set<nat>>, stateMap0: map<set<nat>, nat>, queue0: seq<nat>)
    returns (sets: seq<set<nat>>, stateMap: map<set<nat>, nat>, queue: seq<nat>)
    requires Partial(t, dfa.Value(), sets0, stateMap0) && current < |sets0| && RowsDone(t, dfa.Value(), sets0, rows)
    requires Waiting([current] + queue0, rows, |sets0|)
    requires forall l: Label {:trigger l in groups} :: l in groups <==> Post(t, sets0[current], l) != {}
    requires forall l: Label {:trigger groups[l]} :: l in groups ==> groups[l] == Post(t, sets0[current], l)
    modifies dfa
    ensures Partial(t, dfa.Value(), sets, stateMap) && RowsDone(t, dfa.Value(), sets, rows + {current})
    ensures Waiting(queue, rows + {current}, |sets|)
    ensures sets0 <= sets && (|sets| == |sets0| ==> queue == queue0)
    ensures dfa.initial == old(dfa.initial) && dfa.fEps == old(dfa.fEps)
  {
    hide Post, Partial, RowsDone, HasArc, Hits, RowDone;
    sets, stateMap, queue := sets0, stateMap0, queue0;
    ghost var b := sets0[current];
    PartialFacts(t, dfa.Value(), sets, stateMap);
    var todo := groups.Keys;
    WaitingCurrent(queue0, rows, current, |sets0|);
    while todo != {}
      invariant todo <= groups.Keys
      invariant Partial(t, dfa.Value(), sets, stateMap) && RowsDone(t, dfa.Value(), sets, rows)
      invariant LabelsDone(dfa.Value(), current, groups.Keys - todo)
      invariant Waiting(queue, rows + {current}, |sets|)
      invariant sets0 <= sets && (|sets| == |sets0| ==> queue == queue0)
      invariant dfa.initial == old(dfa.initial) && dfa.fEps == old(dfa.fEps) && dfa.n == |sets|
    {
      var l :| l in todo;
      ghost var d0, sets1, stateMap1 := dfa.Value(), sets, stateMap;
      PartialFacts(t, d0, sets, stateMap);
      var next, isNew;
      sets, stateMap, next, isNew := GetStateId(t, dfa, groups[l], sets, stateMap);
      ghost var d1 := dfa.Value();
      if isNew {
        PartialState(t, d0, sets1, stateMap1, current, l, groups[l], d1);
        WaitingMore(queue, rows + {current}, |sets1|);
        queue := queue + [next];
      }
      dfa.AddTransition(current, l, next);
      PartialArc(t, d1, sets, stateMap, current, l, next, dfa.Value());
      RowsKept(t, d0, dfa.Value(), sets1, sets, rows);
      LabelDone(d0, dfa.Value(), current, groups.Keys - todo, l);
      assert groups.Keys - (todo - {l}) == (groups.Keys - todo) + {l};
      todo := todo - {l};
    }
    assert groups.Keys - todo == groups.Keys && sets[current] == b;
    RowComplete(t, dfa.Value(), sets, rows, current, groups);
  }

  lemma PartialFacts(t: FST, d: FST, sets: seq<set<nat>>, stateMap: map<set<nat>, nat>)
    requires Partial(t, d, sets, stateMap)
    ensures d.n == |sets| && (forall b {:trigger b in stateMap} :: b in stateMap ==> stateMap[b] < |sets| && sets[stateMap[b]] == b)
  {
  }

  lemma WaitingCurrent(queue: seq<nat>, rows: set<nat>, current: nat, n: nat)
    requires Waiting([current] + queue, rows, n)
    ensures current < n && Waiting(queue, rows + {current}, n)
  {
    var all := [current] + queue;
    assert all[0] == current;
    forall i | 0 <= i < |queue| ensures queue[i] < n {
      assert all[i + 1] == queue[i];
    }
    forall i: nat | i < n ensures i in rows + {current} || i in queue {
      assert i in rows || i in all;
    }
  }

  lemma WaitingMore(queue: seq<nat>, rows: set<nat>, n: nat)
    requires Waiting(queue, rows, n)
    ensures Waiting(queue + [n], rows, n + 1)
  {
    var all := queue + [n];
    assert all[|queue|] == n;
    forall i: nat | i < n + 1 ensures i in rows || i in all {
      if i < n {
        assert i in rows || i in queue;
      }
    }
  }

  lemma LabelDone(d: FST, d': FST, i: nat, labels: set<Label>, l: Label)
    requires LabelsDone(d, i, labels) && d.arcs <= d'.arcs && HasArc(d', i, l)
    ensures LabelsDone(d', i, labels + {l})
  {
    hide HasArc;
    forall l' | l' in labels + {l} ensures HasArc(d', i, l') {
      if l' in labels {
        ArcsKept(d, d', i, l');
      }
    }
  }

  lemma RowComplete(t: FST, d: FST, sets: seq<set<nat>>, rows: set<nat>, i: nat, groups: map<Label, set<nat>>)
    requires RowsDone(t, d, sets, rows) && i < |sets| && LabelsDone(d, i, groups.Keys)
    requires forall l: Label {:trigger l in groups} :: l in groups <==> Post(t, sets[i], l) != {}
    ensures RowsDone(t, d, sets, rows + {i})
  {
    hide Post, HasArc;
    forall l: Label | Post(t, sets[i], l) != {} ensures HasArc(d, i, l) {
      assert l in groups;
    }
    assert RowDone(t, d, i, sets[i]);
  }

  method PseudoDeterminize(t: FST) returns (dfa: ExpandedFst, ghost sets: seq<set<nat>>)
    ensures fresh(dfa) && Determinized(t, dfa.Value(), sets)
  {
    hide Post, Partial, RowsDone, Hits, AllSubsets, PostWord;
    dfa := new ExpandedFst();
    CopyFEps(dfa, t.fEps);
    var subsets, stateMap, init, isNew := GetStateId(t, dfa, t.initial, [], map[]);
    var queue := [init];
    dfa.AddInitial(init);
    ghost var rows: set<nat> := {};
    assert subsets == [t.initial] && stateMap == map[t.initial := 0];
    StartPartial(t, dfa.Value());
    while queue != []
      invariant fresh(dfa) && dfa.initial == {0} && forall v :: v in dfa.fEps <==> v in t.fEps
      invariant Partial(t, dfa.Value(), subsets, stateMap) && RowsDone(t, dfa.Value(), subsets, rows)
      invariant Waiting(queue, rows, |subsets|) && |subsets| >= 1 && subsets[0] == t.initial
      decreases |AllSubsets(t)| - |subsets|, |queue|
    {
      FewSubsets(t, dfa.Value(), subsets, stateMap);
      var current := queue[0];
      assert queue == [current] + queue[1..];
      queue := queue[1..];
      WaitingCurrent(queue, rows, current, |subsets|);
      var groups := Group(t, subsets[current]);
      subsets, stateMap, queue := Expand(t, dfa, current, groups, rows, subsets, stateMap, queue);
      FewSubsets(t, dfa.Value(), subsets, stateMap);
      rows := rows + {current};
    }
    sets := subsets;
    AllExpanded(t, dfa.Value(), subsets, stateMap, rows, queue);
  }

  lemma StartPartial(t: FST, d: FST)
    requires d.n == 1 && d.arcs == [] && d.final == if Hits(t.initial, t.final) then {0} else {}
    ensures Partial(t, d, [t.initial], map[t.initial := 0]) && RowsDone(t, d, [t.initial], {})
    ensures Waiting([0], {}, 1)
  {
    hide Hits;
    var e: seq<Label> := [];
    assert PostWord(t, t.initial, e) == t.initial;
    assert SubsetOk(t, 0, t.initial);
  }

  lemma AllExpanded(t: FST, d: FST, sets: seq<set<nat>>, stateMap: map<set<nat>, nat>, rows: set<nat>, queue: seq<nat>)
    requires Partial(t, d, sets, stateMap) && RowsDone(t, d, sets, rows) && Waiting(queue, rows, |sets|) && queue == []
    requires |sets| >= 1 && sets[0] == t.initial && d.initial == {0} && forall v :: v in d.fEps <==> v in t.fEps
    ensures Determinized(t, d, sets)
  {
    hide Post, PostWord, Hits, HasArc, ArcRight;
    forall i: nat, l: Label | i < |sets| && Post(t, sets[i], l) != {} ensures HasArc(d, i, l) {
      assert i in rows;
      assert RowDone(t, d, i, sets[i]);
    }
  }
}
