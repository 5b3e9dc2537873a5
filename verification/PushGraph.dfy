/** The graph problem inside `canonicalizeFST`: the longest word that all outputs from a node start with. */
module PushGraph {
  import opened Words

  datatype Edge = Edge(w: Word, node: nat)

  /** The weighted edges out of every node; node `|g|` is a virtual sink without edges. */
  type Graph = seq<seq<Edge>>

  predicate IsGraph(g: Graph) {
    forall q, e :: 0 <= q < |g| && e in g[q] ==> e.node <= |g|
  }

  /** A path of k edges from q to the sink carries v. */
  ghost predicate Reach(g: Graph, q: nat, k: nat, v: Word)
    requires IsGraph(g) && q <= |g|
    decreases k
  {
    if k == 0 then q == |g| && v == []
    else q < |g| && exists e :: e in g[q] && e.w <= v && Reach(g, e.node, k - 1, v[|e.w|..])
  }

  ghost predicate Live(g: Graph, q: nat)
    requires IsGraph(g) && q <= |g|
  {
    exists k, v :: Reach(g, q, k, v)
  }

  /** A path of k edges carries v from q to the first node that is the sink or cannot reach it.
      Where every node can reach the sink this is `Reach`. */
  ghost predicate Exits(g: Graph, q: nat, k: nat, v: Word)
    requires IsGraph(g) && q <= |g|
    decreases k
  {
    if k == 0 then (q == |g| || !Live(g, q)) && v == []
    else q < |g| && Live(g, q) && exists e :: e in g[q] && e.w <= v && Exits(g, e.node, k - 1, v[|e.w|..])
  }

  ghost predicate PrefixOfAll(g: Graph, q: nat, c: Word)
    requires IsGraph(g) && q <= |g|
  {
    forall k, v :: Exits(g, q, k, v) ==> c <= v
  }

  /** s is the longest word that every exit from q starts with. */
  ghost predicate IsPush(g: Graph, q: nat, s: Word)
    requires IsGraph(g) && q <= |g|
  {
    PrefixOfAll(g, q, s) && forall c :: PrefixOfAll(g, q, c) ==> c <= s
  }

  lemma ReachStep(g: Graph, q: nat, e: Edge, k: nat, v: Word)
    requires IsGraph(g) && q < |g| && e in g[q] && Reach(g, e.node, k, v)
    ensures Reach(g, q, k + 1, e.w + v)
  {
    assert (e.w + v)[|e.w|..] == v;
  }

  lemma LiveStep(g: Graph, q: nat, e: Edge)
    requires IsGraph(g) && q < |g| && e in g[q] && Live(g, e.node)
    ensures Live(g, q)
  {
    var k, v :| Reach(g, e.node, k, v);
    ReachStep(g, q, e, k, v);
  }

  lemma SinkIsLive(g: Graph)
    requires IsGraph(g)
    ensures Live(g, |g|)
  {
    assert Reach(g, |g|, 0, []);
  }

  lemma ExitsStep(g: Graph, q: nat, e: Edge, k: nat, v: Word)
    requires IsGraph(g) && q < |g| && Live(g, q) && e in g[q] && Exits(g, e.node, k, v)
    ensures Exits(g, q, k + 1, e.w + v)
  {
    assert (e.w + v)[|e.w|..] == v;
  }

  lemma FirstEdge(g: Graph, q: nat, k: nat, v: Word) returns (e: Edge, rest: Word)
    requires IsGraph(g) && q <= |g| && k > 0 && Reach(g, q, k, v)
    ensures q < |g| && e in g[q] && v == e.w + rest && Reach(g, e.node, k - 1, rest)
  {
    e :| e in g[q] && e.w <= v && Reach(g, e.node, k - 1, v[|e.w|..]);
    rest := v[|e.w|..];
  }

  lemma FirstExitEdge(g: Graph, q: nat, k: nat, v: Word) returns (e: Edge, rest: Word)
    requires IsGraph(g) && q <= |g| && k > 0 && Exits(g, q, k, v)
    ensures q < |g| && Live(g, q) && e in g[q] && v == e.w + rest && Exits(g, e.node, k - 1, rest)
  {
    hide Live;
    e :| e in g[q] && e.w <= v && Exits(g, e.node, k - 1, v[|e.w|..]);
    rest := v[|e.w|..];
  }

  lemma NoSteps(g: Graph, q: nat, v: Word)
    requires IsGraph(g) && q <= |g|
    ensures Exits(g, q, 0, v) <==> (q == |g| || !Live(g, q)) && v == []
    ensures Reach(g, q, 0, v) <==> q == |g| && v == []
  {
    hide Live;
  }

  // ---------- the reversed adjacency lists ----------

  ghost predicate HasEdge(g: Graph, p: nat, w: Word, x: nat) {
    p < |g| && Edge(w, x) in g[p]
  }

  /** `rev[x]` lists, for every edge p --w--> x, the pair (w, p). */
  ghost predicate Reverses(g: Graph, rev: Graph) {
    && |rev| == |g| + 1
    && (forall x, r :: 0 <= x < |rev| && r in rev[x] ==> r.node < |g|)
    && forall p, w, x {:trigger HasEdge(g, p, w, x)} {:trigger HasEdge(rev, x, w, p)} ::
         HasEdge(g, p, w, x) <==> HasEdge(rev, x, w, p)
  }

  // ---------- phase 1: a witness completion for every node that reaches the sink ----------

  /** The marked nodes reach the sink; `wit[p]` is carried by some exit of `steps[p]` edges, through the edge `via[p]`. */
  ghost predicate Witnessed(g: Graph, has: seq<bool>, wit: seq<Word>, steps: seq<nat>, via: seq<Edge>)
    requires IsGraph(g)
  {
    && |has| == |wit| == |steps| == |via| == |g| + 1
    && has[|g|] && wit[|g|] == []
    && (forall p :: 0 <= p <= |g| && !has[p] ==> wit[p] == [])
    && (forall p :: 0 <= p <= |g| && has[p] ==> Live(g, p) && Exits(g, p, steps[p], wit[p]))
    && (forall p {:trigger ThroughEdge(g, has, wit, p, via[p])} :: 0 <= p < |g| && has[p] ==> ThroughEdge(g, has, wit, p, via[p]))
  }

  ghost predicate ThroughEdge(g: Graph, has: seq<bool>, wit: seq<Word>, p: nat, e: Edge)
    requires IsGraph(g) && |has| == |wit| == |g| + 1 && p < |g|
  {
    e in g[p] && has[e.node] && wit[p] == e.w + wit[e.node]
  }

  /** Outside `open`, the marked nodes are closed under predecessors. */
  ghost predicate ClosedExcept(rev: Graph, has: seq<bool>, open: seq<nat>)
    requires |rev| == |has|
  {
    forall x, r :: 0 <= x < |rev| && has[x] && x !in open && r in rev[x] ==> r.node < |has| && has[r.node]
  }

  ghost function Unmarked(has: seq<bool>): set<nat> {
    set x: nat | x < |has| && !has[x]
  }

  lemma MarkWitness(g: Graph, has: seq<bool>, wit: seq<Word>, steps: seq<nat>, via: seq<Edge>, p: nat, e: Edge)
    requires IsGraph(g) && Witnessed(g, has, wit, steps, via) && p < |g| && !has[p] && e in g[p] && has[e.node]
    ensures Witnessed(g, has[p := true], wit[p := e.w + wit[e.node]], steps[p := steps[e.node] + 1], via[p := e])
    ensures Unmarked(has[p := true]) < Unmarked(has)
  {
    hide Reach, Exits, Live;
    LiveStep(g, p, e);
    ExitsStep(g, p, e, steps[e.node], wit[e.node]);
    assert p in Unmarked(has);
    var has', wit', via' := has[p := true], wit[p := e.w + wit[e.node]], via[p := e];
    forall q | 0 <= q < |g| && has'[q] ensures ThroughEdge(g, has', wit', q, via'[q]) {
      assert q == p || ThroughEdge(g, has, wit, q, via[q]);
    }
  }

  method VisitPredecessors(g: Graph, rev: Graph, q: nat, has0: seq<bool>, wit0: seq<Word>, queue0: seq<nat>,
                           ghost steps0: seq<nat>, ghost via0: seq<Edge>)
    returns (has: seq<bool>, wit: seq<Word>, queue: seq<nat>, ghost steps: seq<nat>, ghost via: seq<Edge>)
    requires IsGraph(g) && Reverses(g, rev) && q <= |g|
    requires Witnessed(g, has0, wit0, steps0, via0) && |has0| == |wit0| == |steps0| == |via0| == |g| + 1 && has0[q]
    requires ClosedExcept(rev, has0, [q] + queue0) && forall x :: x in queue0 ==> x <= |g| && has0[x]
    ensures Witnessed(g, has, wit, steps, via)
    ensures ClosedExcept(rev, has, queue) && forall x :: x in queue ==> x <= |g| && has[x]
    ensures (has == has0 && queue == queue0) || Unmarked(has) < Unmarked(has0)
  {
    hide Witnessed, Unmarked, IsGraph;
    has, wit, queue, steps, via := has0, wit0, queue0, steps0, via0;
    for i := 0 to |rev[q]|
      invariant Witnessed(g, has, wit, steps, via) && |has| == |wit| == |steps| == |via| == |g| + 1 && has[q]
      invariant ClosedExcept(rev, has, [q] + queue) && forall x :: x in queue ==> x <= |g| && has[x]
      invariant forall j :: 0 <= j < i ==> has[rev[q][j].node]
      invariant (has == has0 && queue == queue0) || Unmarked(has) < Unmarked(has0)
    {
      var Edge(w, p) := rev[q][i];
      assert HasEdge(rev, q, w, p) && HasEdge(g, p, w, q);
      if !has[p] {
        MarkWitness(g, has, wit, steps, via, p, Edge(w, q));
        steps, via := steps[p := steps[q] + 1], via[p := Edge(w, q)];
        has, wit, queue := has[p := true], wit[p := w + wit[q]], queue + [p];
      }
    }
  }

  lemma ReachIsMarked(g: Graph, rev: Graph, has: seq<bool>, q: nat, k: nat, v: Word)
    requires IsGraph(g) && Reverses(g, rev) && |has| == |g| + 1 && has[|g|] && ClosedExcept(rev, has, [])
    requires q <= |g| && Reach(g, q, k, v)
    ensures has[q]
    decreases k
  {
    if k != 0 {
      var e :| e in g[q] && e.w <= v && Reach(g, e.node, k - 1, v[|e.w|..]);
      ReachIsMarked(g, rev, has, e.node, k - 1, v[|e.w|..]);
      assert HasEdge(g, q, e.w, e.node) && HasEdge(rev, e.node, e.w, q);
    }
  }

  /** Breadth-first search from the sink over the reversed edges: marks exactly the nodes that reach the sink. */
  method FindWitnesses(g: Graph, rev: Graph)
    returns (has: seq<bool>, wit: seq<Word>, ghost steps: seq<nat>, ghost via: seq<Edge>)
    requires IsGraph(g) && Reverses(g, rev)
    ensures Witnessed(g, has, wit, steps, via)
    ensures forall q :: 0 <= q <= |g| ==> (has[q] <==> Live(g, q))
  {
    has := seq(|g| + 1, _ => false)[|g| := true];
    wit := seq(|g| + 1, _ => []);
    steps := seq(|g| + 1, _ => 0);
    via := seq(|g| + 1, _ => Edge([], 0));
    var queue: seq<nat> := [|g|];
    SinkIsLive(g);
    while queue != []
      invariant Witnessed(g, has, wit, steps, via)
      invariant ClosedExcept(rev, has, queue) && forall x :: x in queue ==> x <= |g| && has[x]
      decreases Unmarked(has), |queue|
    {
      var q := queue[0];
      assert q in queue && [q] + queue[1..] == queue;
      assert forall x :: x in queue[1..] ==> x in queue;
      has, wit, queue, steps, via := VisitPredecessors(g, rev, q, has, wit, queue[1..], steps, via);
    }
    forall q, k, v | 0 <= q <= |g| && Reach(g, q, k, v) ensures has[q] {
      ReachIsMarked(g, rev, has, q, k, v);
    }
  }

  // ---------- phase 2a: the seed estimates ----------

  /** No estimate is shorter than the word to be found. */
  ghost predicate Above(g: Graph, q: nat, x: Word)
    requires IsGraph(g) && q <= |g|
  {
    forall c :: PrefixOfAll(g, q, c) ==> c <= x
  }

  lemma AboveOfGcp(g: Graph, q: nat, x: Word, y: Word)
    requires IsGraph(g) && q <= |g| && Above(g, q, x) && Above(g, q, y)
    ensures Above(g, q, Gcp(x, y))
  {
    hide PrefixOfAll;
    forall c | PrefixOfAll(g, q, c) ensures c <= Gcp(x, y) {
      GcpGreatest(x, y, c);
    }
  }

  lemma WitnessIsAbove(g: Graph, has: seq<bool>, wit: seq<Word>, steps: seq<nat>, via: seq<Edge>, q: nat, e: Edge)
    requires IsGraph(g) && Witnessed(g, has, wit, steps, via) && forall p :: 0 <= p <= |g| ==> (has[p] <==> Live(g, p))
    requires q < |g| && e in g[q] && Live(g, q)
    ensures Above(g, q, e.w + wit[e.node])
  {
    hide Reverses, Live;
    var k := if has[e.node] then steps[e.node] else 0;
    assert Exits(g, e.node, k, wit[e.node]);
    ExitsStep(g, q, e, k, wit[e.node]);
  }

  /** Every estimate is a prefix of each of the node's outputs along the fixed witnesses. */
  ghost predicate UnderWitnesses(g: Graph, has: seq<bool>, wit: seq<Word>, q: nat, x: Word)
    requires IsGraph(g) && |has| == |wit| == |g| + 1 && q < |g|
  {
    forall e :: e in g[q] ==> x <= e.w + wit[e.node]
  }

  method SeedEstimate(g: Graph, has: seq<bool>, wit: seq<Word>, ghost steps: seq<nat>, ghost via: seq<Edge>, q: nat)
    returns (hasEstimate: bool, estimate: Word)
    requires IsGraph(g) && Witnessed(g, has, wit, steps, via) && forall p :: 0 <= p <= |g| ==> (has[p] <==> Live(g, p))
    requires q < |g|
    ensures hasEstimate == has[q]
    ensures has[q] ==> Above(g, q, estimate) && UnderWitnesses(g, has, wit, q, estimate)
  {
    hide Live, Above;
    hasEstimate, estimate := false, [];
    if has[q] {
      for i := 0 to |g[q]|
        invariant hasEstimate == (i > 0)
        invariant hasEstimate ==> Above(g, q, estimate)
        invariant forall j :: 0 <= j < i ==> estimate <= g[q][j].w + wit[g[q][j].node]
      {
        var e := g[q][i];
        var candidate := e.w + wit[e.node];
        WitnessIsAbove(g, has, wit, steps, via, q, e);
        if hasEstimate {
          AboveOfGcp(g, q, estimate, candidate);
        }
        estimate := if hasEstimate then Gcp(estimate, candidate) else candidate;
        hasEstimate := true;
      }
      assert ThroughEdge(g, has, wit, q, via[q]);
    }
  }

  // ---------- phase 2b: the relaxation ----------

  /** Entries of the priority queue: the length of an estimate, and its node. */
  type Entry = (nat, nat)

  predicate NotAfter(a: Entry, b: Entry) {
    a.0 < b.0 || (a.0 == b.0 && a.1 <= b.1)
  }

  method PopMin(pq: multiset<Entry>) returns (top: Entry, rest: multiset<Entry>)
    requires pq != multiset{}
    ensures top in pq && rest == pq - multiset{top}
    ensures forall x :: x in pq ==> NotAfter(top, x)
  {
    top :| top in pq;
    var todo := pq;
    while todo != multiset{}
      invariant top in pq && todo <= pq
      invariant forall x :: x in pq ==> x in todo || NotAfter(top, x)
      decreases |todo|
    {
      var x :| x in todo;
      if !NotAfter(top, x) {
        top := x;
      }
      todo := todo - multiset{x};
    }
    rest := pq - multiset{top};
  }

  ghost predicate Estimated(g: Graph, has: seq<bool>, wit: seq<Word>, est: seq<Word>)
    requires IsGraph(g) && |has| == |wit| == |g| + 1
  {
    && |est| == |g|
    && forall q {:trigger Above(g, q, est[q])} {:trigger UnderWitnesses(g, has, wit, q, est[q])} ::
         0 <= q < |g| && has[q] ==> Above(g, q, est[q]) && UnderWitnesses(g, has, wit, q, est[q])
  }

  /** The frozen estimates are the ones no longer than `last`. */
  ghost predicate SplitAt(has: seq<bool>, est: seq<Word>, fin: seq<bool>, last: nat)
    requires |has| == |est| + 1 && |fin| == |est|
  {
    forall q :: 0 <= q < |est| ==> (fin[q] ==> has[q] && |est[q]| <= last) && (has[q] && !fin[q] ==> last <= |est[q]|)
  }

  /** p's estimate is a prefix of w.sigma(x) for every edge p --w--> x to a frozen x other than `skip`. */
  ghost predicate Respects(g: Graph, est: seq<Word>, fin: seq<bool>, p: nat, skip: int)
    requires |fin| == |est| == |g| && p < |g|
  {
    forall e :: e in g[p] && e.node < |g| && fin[e.node] && e.node != skip ==> est[p] <= e.w + est[e.node]
  }

  ghost predicate AllRespect(g: Graph, has: seq<bool>, est: seq<Word>, fin: seq<bool>, skip: int)
    requires |fin| == |est| == |g| && |has| == |g| + 1
  {
    forall p {:trigger Respects(g, est, fin, p, skip)} :: 0 <= p < |g| && has[p] ==> Respects(g, est, fin, p, skip)
  }

  ghost predicate Queued(has: seq<bool>, est: seq<Word>, fin: seq<bool>, pq: multiset<Entry>)
    requires |has| == |est| + 1 && |fin| == |est|
  {
    && (forall q {:trigger fin[q]} :: 0 <= q < |est| && has[q] && !fin[q] ==> (|est[q]|, q) in pq)
    && (forall x :: x in pq ==> x.1 < |est| && has[x.1])
  }

  /** An estimate that is not longer than its successor's already is a prefix along the edge:
      both are prefixes of the edge's word followed by the successor's witness. */
  lemma FrozenEdge(g: Graph, has: seq<bool>, wit: seq<Word>, steps: seq<nat>, via: seq<Edge>, est: seq<Word>, p: nat, e: Edge)
    requires IsGraph(g) && Witnessed(g, has, wit, steps, via) && Estimated(g, has, wit, est)
    requires p < |g| && has[p] && e in g[p] && e.node < |g| && has[e.node]
    ensures est[p] <= e.w + wit[e.node] && e.w + est[e.node] <= e.w + wit[e.node]
    ensures |est[p]| <= |e.w + est[e.node]| ==> est[p] <= e.w + est[e.node]
  {
    hide Live, Exits, Above;
    var q := e.node;
    assert ThroughEdge(g, has, wit, q, via[q]) && UnderWitnesses(g, has, wit, q, est[q]);
    assert est[q] <= wit[q];
    PrefixCancel(e.w, est[q], wit[q]);
    assert UnderWitnesses(g, has, wit, p, est[p]);
    PrefixesComparable(est[p], e.w + est[q], e.w + wit[q]);
  }

  lemma AboveAlongEdge(g: Graph, p: nat, e: Edge, x: Word, k: nat, v: Word)
    requires IsGraph(g) && p < |g| && e in g[p] && Live(g, p) && Above(g, e.node, x) && Exits(g, e.node, k, v)
    ensures Above(g, p, e.w + x)
  {
    hide Live;
    forall c | PrefixOfAll(g, p, c) ensures c <= e.w + x {
      ExitsStep(g, p, e, k, v);
      if |c| > |e.w| {
        var d := c[|e.w|..];
        assert c == e.w + d;
        forall k, v | Exits(g, e.node, k, v) ensures d <= v {
          ExitsStep(g, p, e, k, v);
          PrefixCancel(e.w, d, v);
        }
        assert PrefixOfAll(g, e.node, d);
        PrefixCancel(e.w, d, x);
      }
    }
  }

  /** Replacing p's estimate by its gcp with the value along an edge to the frozen node keeps everything known. */
  lemma RefineEstimate(g: Graph, has: seq<bool>, wit: seq<Word>, steps: seq<nat>, via: seq<Edge>,
                       est: seq<Word>, fin: seq<bool>, last: nat, p: nat, e: Edge)
    requires IsGraph(g) && Witnessed(g, has, wit, steps, via) && Estimated(g, has, wit, est)
    requires p < |g| && has[p] && Live(g, p) && e in g[p] && e.node < |g| && has[e.node]
    requires |fin| == |g| && !fin[p] && fin[e.node] && |est[e.node]| == last
    requires SplitAt(has, est, fin, last) && AllRespect(g, has, est, fin, e.node)
    ensures var x := Gcp(est[p], e.w + est[e.node]);
      && x <= est[p] && x <= e.w + est[e.node] && (x != est[p] ==> |x| < |est[p]|)
      && Estimated(g, has, wit, est[p := x])
      && SplitAt(has, est[p := x], fin, last) && AllRespect(g, has, est[p := x], fin, e.node)
  {
    hide Live, Exits, Reach;
    var q := e.node;
    var candidate := e.w + est[q];
    var x := Gcp(est[p], candidate);
    FrozenEdge(g, has, wit, steps, via, est, p, e);
    GcpOfComparable(est[p], candidate, e.w + wit[q]);
    assert Above(g, q, est[q]) && Above(g, p, est[p]) && UnderWitnesses(g, has, wit, p, est[p]);
    AboveAlongEdge(g, p, e, est[q], steps[q], wit[q]);
    AboveOfGcp(g, p, est[p], candidate);
    hide Witnessed, Above;
    var est' := est[p := x];
    forall r | 0 <= r < |g| && has[r] ensures Above(g, r, est'[r]) && UnderWitnesses(g, has, wit, r, est'[r]) {
      assert r == p || (Above(g, r, est[r]) && UnderWitnesses(g, has, wit, r, est[r]));
    }
    forall r | 0 <= r < |g| && has[r] ensures Respects(g, est', fin, r, q) {
      assert Respects(g, est, fin, r, q);
    }
  }

  method RelaxPredecessors(g: Graph, rev: Graph, has: seq<bool>, ghost wit: seq<Word>, ghost steps: seq<nat>, ghost via: seq<Edge>,
                           hasEstimate: seq<bool>, fin: seq<bool>, q: nat, est0: seq<Word>, pq0: multiset<Entry>)
    returns (est: seq<Word>, pq: multiset<Entry>)
    requires IsGraph(g) && Reverses(g, rev) && Witnessed(g, has, wit, steps, via)
    requires forall p :: 0 <= p <= |g| ==> (has[p] <==> Live(g, p))
    requires |has| == |wit| == |g| + 1 && |est0| == |fin| == |g| && q < |g| && has[q] && fin[q] && Estimated(g, has, wit, est0)
    requires hasEstimate == has[..|g|]
    requires SplitAt(has, est0, fin, |est0[q]|) && AllRespect(g, has, est0, fin, q) && Queued(has, est0, fin, pq0)
    ensures |est| == |g| && Estimated(g, has, wit, est)
    ensures SplitAt(has, est, fin, |est0[q]|) && AllRespect(g, has, est, fin, -1) && Queued(has, est, fin, pq)
    ensures forall p :: 0 <= p < |g| && fin[p] ==> est[p] == est0[p]
  {
    hide Live, Exits, Reach, Estimated, SplitAt, AllRespect, Witnessed;
    est, pq := est0, pq0;
    var last := |est[q]|;
    for i := 0 to |rev[q]|
      invariant |est| == |g| && est[q] == est0[q] && Estimated(g, has, wit, est)
      invariant SplitAt(has, est, fin, last) && AllRespect(g, has, est, fin, q) && Queued(has, est, fin, pq)
      invariant forall p :: 0 <= p < |g| && fin[p] ==> est[p] == est0[p]
      invariant forall j :: 0 <= j < i && !fin[rev[q][j].node] ==> est[rev[q][j].node] <= rev[q][j].w + est[q]
    {
      var Edge(w, p) := rev[q][i];
      assert HasEdge(rev, q, w, p) && HasEdge(g, p, w, q);
      if !fin[p] {
        LiveStep(g, p, Edge(w, q));
        RefineEstimate(g, has, wit, steps, via, est, fin, last, p, Edge(w, q));
        var candidate := w + est[q];
        var refined := if hasEstimate[p] then Gcp(est[p], candidate) else candidate;
        ghost var before := est;
        if refined != est[p] {
          est, pq := est[p := refined], pq + multiset{(|refined|, p)};
        }
        assert est == before[p := refined];
      }
    }
    RelaxedEdges(g, rev, has, wit, steps, via, est, fin, q);
  }

  lemma RelaxedEdges(g: Graph, rev: Graph, has: seq<bool>, wit: seq<Word>, steps: seq<nat>, via: seq<Edge>,
                     est: seq<Word>, fin: seq<bool>, q: nat)
    requires IsGraph(g) && Reverses(g, rev) && Witnessed(g, has, wit, steps, via) && Estimated(g, has, wit, est)
    requires |fin| == |g| && q < |g| && has[q] && fin[q] && SplitAt(has, est, fin, |est[q]|) && AllRespect(g, has, est, fin, q)
    requires forall j :: 0 <= j < |rev[q]| && !fin[rev[q][j].node] ==> est[rev[q][j].node] <= rev[q][j].w + est[q]
    ensures AllRespect(g, has, est, fin, -1)
  {
    hide Live, Exits, Reach, Above, UnderWitnesses;
    forall p | 0 <= p < |g| && has[p] ensures Respects(g, est, fin, p, -1) {
      assert Respects(g, est, fin, p, q);
      forall e | e in g[p] && e.node == q ensures est[p] <= e.w + est[q] {
        assert HasEdge(g, p, e.w, q) && HasEdge(rev, q, e.w, p);
        var j :| 0 <= j < |rev[q]| && rev[q][j] == Edge(e.w, p);
        if fin[p] {
          FrozenEdge(g, has, wit, steps, via, est, p, e);
        }
      }
    }
  }

  /** The frozen estimate of a node that reaches the sink, and the empty word elsewhere. */
  function PushValue(g: Graph, has: seq<bool>, est: seq<Word>, x: nat): Word
    requires |has| == |g| + 1 && |est| == |g| && x <= |g|
  {
    if x < |g| && has[x] then est[x] else []
  }

  lemma RespectedOnExits(g: Graph, has: seq<bool>, wit: seq<Word>, est: seq<Word>, fin: seq<bool>, q: nat, k: nat, v: Word)
    requires IsGraph(g) && |has| == |wit| == |g| + 1 && |est| == |fin| == |g|
    requires forall p :: 0 <= p <= |g| ==> (has[p] <==> Live(g, p))
    requires forall p :: 0 <= p < |g| ==> fin[p] == has[p]
    requires wit[|g|] == [] && forall p :: 0 <= p <= |g| && !has[p] ==> wit[p] == []
    requires Estimated(g, has, wit, est) && AllRespect(g, has, est, fin, -1)
    requires q <= |g| && Exits(g, q, k, v)
    ensures PushValue(g, has, est, q) <= v
    decreases k
  {
    hide Live, Above;
    if k != 0 {
      var e, rest := FirstExitEdge(g, q, k, v);
      var x := PushValue(g, has, est, e.node);
      RespectedOnExits(g, has, wit, est, fin, e.node, k - 1, rest);
      assert Respects(g, est, fin, q, -1) && UnderWitnesses(g, has, wit, q, est[q]);
      assert e.w + [] == e.w;
      assert est[q] <= e.w + x;
      PrefixCancel(e.w, x, rest);
    }
  }

  lemma RelaxationExact(g: Graph, has: seq<bool>, wit: seq<Word>, est: seq<Word>, fin: seq<bool>, q: nat)
    requires IsGraph(g) && |has| == |wit| == |g| + 1 && |est| == |fin| == |g|
    requires forall p :: 0 <= p <= |g| ==> (has[p] <==> Live(g, p))
    requires forall p :: 0 <= p < |g| ==> fin[p] == has[p]
    requires wit[|g|] == [] && forall p :: 0 <= p <= |g| && !has[p] ==> wit[p] == []
    requires Estimated(g, has, wit, est) && AllRespect(g, has, est, fin, -1)
    requires q < |g|
    ensures IsPush(g, q, PushValue(g, has, est, q))
  {
    var s := PushValue(g, has, est, q);
    forall k, v | Exits(g, q, k, v) ensures s <= v {
      RespectedOnExits(g, has, wit, est, fin, q, k, v);
    }
    if has[q] {
      assert Above(g, q, est[q]);
    } else {
      assert Exits(g, q, 0, []);
    }
  }

  lemma RelaxationResult(g: Graph, has: seq<bool>, wit: seq<Word>, steps: seq<nat>, via: seq<Edge>,
                         est: seq<Word>, fin: seq<bool>, last: nat, sigma: seq<Word>)
    requires IsGraph(g) && Witnessed(g, has, wit, steps, via) && forall p :: 0 <= p <= |g| ==> (has[p] <==> Live(g, p))
    requires Relaxing(g, has, wit, est, fin, last, multiset{}) && |sigma| == |g|
    requires forall q :: 0 <= q < |g| ==> sigma[q] == if fin[q] then est[q] else []
    ensures forall q :: 0 <= q < |g| ==> IsPush(g, q, sigma[q])
  {
    hide IsPush, Live, Estimated, AllRespect;
    QueueDrained(has, est, fin, last);
    forall q | 0 <= q < |g| ensures IsPush(g, q, sigma[q]) {
      RelaxationExact(g, has, wit, est, fin, q);
    }
  }

  ghost function Waiting(fin: seq<bool>): set<nat> {
    set x: nat | x < |fin| && !fin[x]
  }

  /** Freezing the node with the shortest estimate keeps the frozen estimates shortest. */
  lemma FreezeTop(g: Graph, has: seq<bool>, est: seq<Word>, fin: seq<bool>, last: nat, pq: multiset<Entry>, top: Entry)
    requires |has| == |est| + 1 && |fin| == |est| == |g| && SplitAt(has, est, fin, last) && Queued(has, est, fin, pq)
    requires top in pq && forall x :: x in pq ==> NotAfter(top, x)
    requires !fin[top.1] && top.0 == |est[top.1]| && AllRespect(g, has, est, fin, -1)
    ensures last <= top.0 && has[top.1]
    ensures SplitAt(has, est, fin[top.1 := true], top.0)
    ensures Queued(has, est, fin[top.1 := true], pq - multiset{top})
    ensures AllRespect(g, has, est, fin[top.1 := true], top.1)
    ensures Waiting(fin[top.1 := true]) < Waiting(fin)
  {
    var fin' := fin[top.1 := true];
    assert top.1 in Waiting(fin);
    forall p | 0 <= p < |g| && has[p] ensures Respects(g, est, fin', p, top.1) {
      assert Respects(g, est, fin, p, -1);
    }
  }

  lemma RelaxationStart(g: Graph, has: seq<bool>, wit: seq<Word>, est: seq<Word>)
    requires IsGraph(g) && |has| == |wit| == |g| + 1 && Estimated(g, has, wit, est)
    ensures |est| == |g| && |has| == |g| + 1
    ensures AllRespect(g, has, est, seq(|g|, _ => false), -1) && SplitAt(has, est, seq(|g|, _ => false), 0)
  {
  }

  method QueueEstimates(has: seq<bool>, hasEstimate: seq<bool>, est: seq<Word>) returns (pq: multiset<Entry>)
    requires |has| == |est| + 1 && hasEstimate == has[..|est|]
    ensures Queued(has, est, seq(|est|, _ => false), pq)
  {
    pq := multiset{};
    for q := 0 to |est|
      invariant forall p :: 0 <= p < q && has[p] ==> (|est[p]|, p) in pq
      invariant forall x :: x in pq ==> x.1 < |est| && has[x.1]
    {
      if hasEstimate[q] {
        pq := pq + multiset{(|est[q]|, q)};
      }
    }
  }

  lemma PopStale(has: seq<bool>, est: seq<Word>, fin: seq<bool>, pq: multiset<Entry>, top: Entry)
    requires |has| == |est| + 1 && |fin| == |est| && Queued(has, est, fin, pq) && top in pq
    ensures top.1 < |est|
    ensures fin[top.1] || top.0 != |est[top.1]| ==> Queued(has, est, fin, pq - multiset{top})
  {
  }

  lemma QueueDrained(has: seq<bool>, est: seq<Word>, fin: seq<bool>, last: nat)
    requires |has| == |est| + 1 && |fin| == |est| && Queued(has, est, fin, multiset{}) && SplitAt(has, est, fin, last)
    ensures forall q :: 0 <= q < |est| ==> fin[q] == has[q]
  {
  }

  /** Everything the relaxation loop keeps, `last` being the length of the estimate frozen last. */
  ghost predicate Relaxing(g: Graph, has: seq<bool>, wit: seq<Word>, est: seq<Word>, fin: seq<bool>, last: nat, pq: multiset<Entry>)
    requires IsGraph(g) && |has| == |wit| == |g| + 1
  {
    && |est| == |fin| == |g| && Estimated(g, has, wit, est)
    && SplitAt(has, est, fin, last) && AllRespect(g, has, est, fin, -1) && Queued(has, est, fin, pq)
  }

  method FreezeAndRelax(g: Graph, rev: Graph, has: seq<bool>, ghost wit: seq<Word>, ghost steps: seq<nat>, ghost via: seq<Edge>,
                        hasEstimate: seq<bool>, fin0: seq<bool>, ghost last: nat, est0: seq<Word>, ghost pq0: multiset<Entry>,
                        top: Entry, rest: multiset<Entry>)
    returns (fin: seq<bool>, est: seq<Word>, pq: multiset<Entry>)
    requires IsGraph(g) && Reverses(g, rev) && |has| == |wit| == |g| + 1 && Witnessed(g, has, wit, steps, via)
    requires forall p :: 0 <= p <= |g| ==> (has[p] <==> Live(g, p))
    requires hasEstimate == has[..|g|] && Relaxing(g, has, wit, est0, fin0, last, pq0)
    requires top in pq0 && rest == pq0 - multiset{top} && forall x :: x in pq0 ==> NotAfter(top, x)
    requires top.1 < |g| && !fin0[top.1] && top.0 == |est0[top.1]|
    ensures last <= top.0 && Relaxing(g, has, wit, est, fin, top.0, pq)
    ensures fin == fin0[top.1 := true] && Waiting(fin) < Waiting(fin0)
    ensures forall p :: 0 <= p < |g| && fin[p] ==> est[p] == est0[p]
  {
    hide Live, Exits, Reach, Witnessed, Estimated, AllRespect, Waiting, Above, UnderWitnesses, SplitAt, Queued, NotAfter, Reverses, IsGraph;
    FreezeTop(g, has, est0, fin0, last, pq0, top);
    fin := fin0[top.1 := true];
    est, pq := RelaxPredecessors(g, rev, has, wit, steps, via, hasEstimate, fin, top.1, est0, rest);
  }

  /** Dijkstra over word lengths: always freezes the shortest estimate and refines its predecessors. */
  method Relax(g: Graph, rev: Graph, has: seq<bool>, ghost wit: seq<Word>, ghost steps: seq<nat>, ghost via: seq<Edge>,
               hasEstimate: seq<bool>, seed: seq<Word>)
    returns (sigma: seq<Word>)
    requires IsGraph(g) && Reverses(g, rev) && |has| == |wit| == |g| + 1 && Witnessed(g, has, wit, steps, via)
    requires forall p :: 0 <= p <= |g| ==> (has[p] <==> Live(g, p))
    requires hasEstimate == has[..|g|] && Estimated(g, has, wit, seed)
    ensures |sigma| == |g| && forall q :: 0 <= q < |g| ==> IsPush(g, q, sigma[q])
  {
    hide Live, Exits, Reach, Witnessed, Estimated, AllRespect, Waiting, IsPush, Above, UnderWitnesses, SplitAt, Queued, NotAfter, Reverses, IsGraph;
    RelaxationStart(g, has, wit, seed);
    var est := seed;
    var fin := seq(|g|, _ => false);
    sigma := seq(|g|, _ => []);
    var pq := QueueEstimates(has, hasEstimate, est);
    ghost var last := 0;
    while pq != multiset{}
      invariant Relaxing(g, has, wit, est, fin, last, pq) && |sigma| == |g|
      invariant forall q :: 0 <= q < |g| ==> sigma[q] == if fin[q] then est[q] else []
      decreases Waiting(fin), |pq|
    {
      var top, rest := PopMin(pq);
      var (len, q) := top;
      PopStale(has, est, fin, pq, top);
      if fin[q] || len != |est[q]| {
        pq := rest;
      } else {
        sigma := sigma[q := est[q]];
        fin, est, pq := FreezeAndRelax(g, rev, has, wit, steps, via, hasEstimate, fin, last, est, pq, top, rest);
        last := len;
      }
    }
    RelaxationResult(g, has, wit, steps, via, est, fin, last, sigma);
  }

  // ---------- moving the pushed words ----------

  lemma ReachExits(g: Graph, q: nat, k: nat, v: Word)
    requires IsGraph(g) && q <= |g| && Reach(g, q, k, v)
    ensures Exits(g, q, k, v)
    decreases k
  {
    hide Reach, Exits;
    assert Live(g, q);
    if k == 0 {
      NoSteps(g, q, v);
    } else {
      var e, rest := FirstEdge(g, q, k, v);
      ReachExits(g, e.node, k - 1, rest);
      ExitsStep(g, q, e, k - 1, rest);
    }
  }

  lemma HasExit(g: Graph, q: nat) returns (k: nat, v: Word)
    requires IsGraph(g) && q <= |g|
    ensures Exits(g, q, k, v)
  {
    if Live(g, q) {
      k, v :| Reach(g, q, k, v);
      ReachExits(g, q, k, v);
    } else {
      k, v := 0, [];
    }
  }

  /** The pushed words, extended by the empty word at the sink. */
  function At(sigma: seq<Word>, x: nat): Word {
    if x < |sigma| then sigma[x] else []
  }

  /** Every edge still starts with the pushed word of its source once that of its target has arrived behind it. */
  ghost predicate Strips(g: Graph, sigma: seq<Word>) {
    |sigma| == |g| && forall q, e :: 0 <= q < |g| && e in g[q] ==> sigma[q] <= e.w + At(sigma, e.node)
  }

  ghost predicate AllPush(g: Graph, sigma: seq<Word>)
    requires IsGraph(g)
  {
    |sigma| == |g| && forall q {:trigger IsPush(g, q, sigma[q])} :: 0 <= q < |g| ==> IsPush(g, q, sigma[q])
  }

  lemma DeadPushesNothing(g: Graph, q: nat, s: Word)
    requires IsGraph(g) && q <= |g| && IsPush(g, q, s) && (q == |g| || !Live(g, q))
    ensures s == []
  {
    assert Exits(g, q, 0, []);
  }

  lemma PushStrips(g: Graph, sigma: seq<Word>)
    requires IsGraph(g) && AllPush(g, sigma)
    ensures Strips(g, sigma)
  {
    hide Live, Exits;
    forall q, e | 0 <= q < |g| && e in g[q] ensures sigma[q] <= e.w + At(sigma, e.node) {
      assert IsPush(g, q, sigma[q]);
      if Live(g, q) {
        if e.node < |g| {
          assert IsPush(g, e.node, sigma[e.node]);
        } else {
          assert Above(g, |g|, []) by { assert Exits(g, |g|, 0, []) by { SinkExit(g); } }
        }
        var k, v := HasExit(g, e.node);
        AboveAlongEdge(g, q, e, At(sigma, e.node), k, v);
      } else {
        DeadPushesNothing(g, q, sigma[q]);
      }
    }
  }

  lemma SinkExit(g: Graph)
    requires IsGraph(g)
    ensures Exits(g, |g|, 0, [])
  {
  }

  /** The same graph with the pushed words moved to the front of every edge. */
  function PushedRow(row: seq<Edge>, sigma: seq<Word>, q: nat): (r: seq<Edge>)
    requires q < |sigma| && forall e :: e in row ==> sigma[q] <= e.w + At(sigma, e.node)
    ensures |r| == |row|
    ensures forall i :: 0 <= i < |row| ==> r[i].node == row[i].node && sigma[q] + r[i].w == row[i].w + At(sigma, row[i].node)
  {
    seq(|row|, i requires 0 <= i < |row| => Edge(InvMul(sigma[q], row[i].w + At(sigma, row[i].node)), row[i].node))
  }

  ghost predicate IsPushed(g: Graph, sigma: seq<Word>, h: Graph) {
    && Strips(g, sigma) && |h| == |g|
    && forall q {:trigger h[q]} :: 0 <= q < |g| ==> h[q] == PushedRow(g[q], sigma, q)
  }

  lemma PushedEdge(g: Graph, sigma: seq<Word>, h: Graph, q: nat, f: Edge) returns (e: Edge)
    requires IsGraph(g) && IsPushed(g, sigma, h) && q < |g| && f in h[q]
    ensures e in g[q] && e.node == f.node && sigma[q] + f.w == e.w + At(sigma, e.node)
  {
    var i :| 0 <= i < |h[q]| && h[q][i] == f;
    e := g[q][i];
  }

  lemma OriginalEdge(g: Graph, sigma: seq<Word>, h: Graph, q: nat, e: Edge) returns (f: Edge)
    requires IsGraph(g) && IsPushed(g, sigma, h) && q < |g| && e in g[q]
    ensures f in h[q] && f.node == e.node && sigma[q] + f.w == e.w + At(sigma, e.node)
  {
    var i :| 0 <= i < |g[q]| && g[q][i] == e;
    f := h[q][i];
  }

  lemma Regroup(a: Word, b: Word, c: Word, d: Word, x: Word)
    requires a + b == c + d
    ensures a + (b + x) == c + (d + x)
  {
    assert a + (b + x) == (a + b) + x && c + (d + x) == (c + d) + x;
  }

  lemma ReachPushed(g: Graph, sigma: seq<Word>, h: Graph, q: nat, k: nat, v: Word)
    requires IsGraph(g) && IsGraph(h) && IsPushed(g, sigma, h) && q <= |g| && Reach(h, q, k, v)
    ensures Reach(g, q, k, At(sigma, q) + v)
    decreases k
  {
    hide IsPushed, Strips, Reach;
    PushedSizes(g, sigma, h);
    if k == 0 {
      NoSteps(g, q, At(sigma, q) + v);
      NoSteps(h, q, v);
    } else {
      var f, rest := FirstEdge(h, q, k, v);
      var e := PushedEdge(g, sigma, h, q, f);
      ReachPushed(g, sigma, h, e.node, k - 1, rest);
      ReachStep(g, q, e, k - 1, At(sigma, e.node) + rest);
      Regroup(sigma[q], f.w, e.w, At(sigma, e.node), rest);
    }
  }

  lemma PushedSizes(g: Graph, sigma: seq<Word>, h: Graph)
    requires IsPushed(g, sigma, h)
    ensures |h| == |g| == |sigma|
  {
  }

  lemma ReachUnpushed(g: Graph, sigma: seq<Word>, h: Graph, q: nat, k: nat, v: Word)
    requires IsGraph(g) && IsGraph(h) && IsPushed(g, sigma, h) && q <= |g| && Reach(g, q, k, v)
    ensures At(sigma, q) <= v && Reach(h, q, k, v[|At(sigma, q)|..])
    decreases k
  {
    hide IsPushed, Strips, Reach;
    PushedSizes(g, sigma, h);
    if k == 0 {
      NoSteps(g, q, v);
      NoSteps(h, q, v);
    } else {
      var e, rest := FirstEdge(g, q, k, v);
      ReachUnpushed(g, sigma, h, e.node, k - 1, rest);
      var s := At(sigma, e.node);
      var f := OriginalEdge(g, sigma, h, q, e);
      ReachStep(h, q, f, k - 1, rest[|s|..]);
      Regroup(sigma[q], f.w, e.w, s, rest[|s|..]);
      assert rest == s + rest[|s|..];
      assert v == sigma[q] + (f.w + rest[|s|..]);
    }
  }

  lemma LivePushed(g: Graph, sigma: seq<Word>, h: Graph, q: nat)
    requires IsGraph(g) && IsGraph(h) && IsPushed(g, sigma, h) && q <= |g|
    ensures Live(h, q) <==> Live(g, q)
  {
    hide Reach, IsPushed;
    assert |h| == |g| by { PushedSizes(g, sigma, h); }
    if Live(h, q) {
      var k, v :| Reach(h, q, k, v);
      ReachPushed(g, sigma, h, q, k, v);
    }
    if Live(g, q) {
      var k, v :| Reach(g, q, k, v);
      ReachUnpushed(g, sigma, h, q, k, v);
    }
  }

  lemma ExitsUnpushed(g: Graph, sigma: seq<Word>, h: Graph, q: nat, k: nat, v: Word)
    requires IsGraph(g) && IsGraph(h) && IsPushed(g, sigma, h) && AllPush(g, sigma) && q <= |g| && Exits(g, q, k, v)
    ensures At(sigma, q) <= v && Exits(h, q, k, v[|At(sigma, q)|..])
    decreases k
  {
    hide IsPushed, Strips, Live, AllPush, IsPush, Exits;
    LivePushed(g, sigma, h, q);
    PushedSizes(g, sigma, h);
    if k == 0 {
      NoSteps(g, q, v);
      NoSteps(h, q, v);
      if q < |g| {
        PushAt(g, sigma, q);
        DeadPushesNothing(g, q, sigma[q]);
      }
    } else {
      var e, rest := FirstExitEdge(g, q, k, v);
      ExitsUnpushed(g, sigma, h, e.node, k - 1, rest);
      var s := At(sigma, e.node);
      var f := OriginalEdge(g, sigma, h, q, e);
      ExitsStep(h, q, f, k - 1, rest[|s|..]);
      Regroup(sigma[q], f.w, e.w, s, rest[|s|..]);
      assert rest == s + rest[|s|..];
      assert v == sigma[q] + (f.w + rest[|s|..]);
    }
  }

  lemma PushAt(g: Graph, sigma: seq<Word>, q: nat)
    requires IsGraph(g) && AllPush(g, sigma) && q < |g|
    ensures |sigma| == |g| && IsPush(g, q, sigma[q])
  {
  }

  /** After pushing, nothing is left to push anywhere. */
  lemma PushedIsOnward(g: Graph, sigma: seq<Word>, h: Graph, q: nat)
    requires IsGraph(g) && IsGraph(h) && IsPushed(g, sigma, h) && AllPush(g, sigma) && q < |g|
    ensures |h| == |g| && IsPush(h, q, [])
  {
    hide Live, Exits, IsPushed;
    PushedSizes(g, sigma, h);
    PushAt(g, sigma, q);
    forall c | PrefixOfAll(h, q, c) ensures c <= [] {
      forall k, v | Exits(g, q, k, v) ensures sigma[q] + c <= v {
        ExitsUnpushed(g, sigma, h, q, k, v);
        PrefixCancel(sigma[q], c, v[|sigma[q]|..]);
      }
      assert PrefixOfAll(g, q, sigma[q] + c);
      PrefixCancel(sigma[q], c, []);
      assert sigma[q] + [] == sigma[q];
    }
  }
}