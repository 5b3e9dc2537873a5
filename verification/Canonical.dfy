/** Pushing outputs to the front: `isCanonical` and `canonicalizeFST`. */
module Canonical {
  import opened Words
  import opened Subsequential
  import opened PushGraph

  // ---------- the output relation as a graph ----------

  /** The edges of q: its arcs, then its final output as an edge into the sink. */
  function RowOf(t: SSFST, q: nat): seq<Edge>
    requires t.Valid() && q < t.Size()
  {
    seq(|t.arcs[q]|, i requires 0 <= i < |t.arcs[q]| => Edge(t.arcs[q][i].out, t.arcs[q][i].to))
    + (if t.psi[q].Some? then [Edge(t.psi[q].value, t.Size())] else [])
  }

  function GraphOf(t: SSFST): (g: Graph)
    requires t.Valid()
    ensures |g| == t.Size() && IsGraph(g)
    ensures forall q {:trigger g[q]} :: 0 <= q < t.Size() ==> g[q] == RowOf(t, q)
  {
    var g := seq(t.Size(), q requires 0 <= q < t.Size() => RowOf(t, q));
    assert forall q, e :: 0 <= q < |g| && e in g[q] ==> e.node <= |g| by {
      forall q, e | 0 <= q < |g| && e in g[q] ensures e.node <= |g| {
        var a := EdgeCases(t, q, e);
      }
    }
    g
  }

  lemma EdgeCases(t: SSFST, q: nat, e: Edge) returns (a: Option<Arc>)
    requires t.Valid() && q < t.Size() && e in RowOf(t, q)
    ensures a.Some? ==> a.value in t.arcs[q] && e == Edge(a.value.out, a.value.to)
    ensures a.None? ==> t.psi[q] == Some(e.w) && e.node == t.Size()
  {
    var row := RowOf(t, q);
    var i :| 0 <= i < |row| && row[i] == e;
    a := if i < |t.arcs[q]| then Some(t.arcs[q][i]) else None;
  }

  lemma ArcEdge(t: SSFST, q: nat, a: Arc)
    requires t.Valid() && q < t.Size() && a in t.arcs[q]
    ensures Edge(a.out, a.to) in RowOf(t, q)
  {
    var i :| 0 <= i < |t.arcs[q]| && t.arcs[q][i] == a;
    assert RowOf(t, q)[i] == Edge(a.out, a.to);
  }

  lemma PsiEdge(t: SSFST, q: nat)
    requires t.Valid() && q < t.Size() && t.psi[q].Some?
    ensures Edge(t.psi[q].value, t.Size()) in RowOf(t, q)
  {
    assert RowOf(t, q)[|t.arcs[q]|] == Edge(t.psi[q].value, t.Size());
  }

  lemma RelReaches(t: SSFST, q: nat, u: Word, v: Word)
    requires t.Valid() && q < t.Size() && Rel(t, q, u, v)
    ensures Reach(GraphOf(t), q, |u| + 1, v)
    decreases u
  {
    hide RowOf, Reach, GraphOf, Rel;
    var g := GraphOf(t);
    if u == [] {
      RelEnd(t, q, v);
      PsiEdge(t, q);
      NoSteps(g, |g|, []);
      ReachStep(g, q, Edge(v, |g|), 0, []);
      assert v + [] == v;
    } else {
      var a, rest := FirstArc(t, q, u, v);
      RelReaches(t, a.to, u[1..], rest);
      ArcEdge(t, q, a);
      ReachStep(g, q, Edge(a.out, a.to), |u|, rest);
    }
  }

  lemma ReachIsRel(t: SSFST, q: nat, k: nat, v: Word) returns (u: Word)
    requires t.Valid() && q < t.Size() && Reach(GraphOf(t), q, k, v)
    ensures Rel(t, q, u, v)
    decreases k
  {
    hide RowOf, Reach, GraphOf, Rel;
    var g := GraphOf(t);
    if k == 0 {
      NoSteps(g, q, v);
      assert false;
    } else {
      var e, rest := FirstEdge(g, q, k, v);
      var a := EdgeCases(t, q, e);
      if a.Some? {
        u := ReachIsRel(t, a.value.to, k - 1, rest);
        RelStep(t, q, a.value, u, rest);
        u := [a.value.sym] + u;
      } else {
        SinkStays(g, k - 1, rest);
        RelEnd(t, q, v);
        assert v == e.w;
        u := [];
      }
    }
  }

  lemma SinkStays(g: Graph, k: nat, v: Word)
    requires IsGraph(g) && Reach(g, |g|, k, v)
    ensures k == 0 && v == []
  {
  }

  lemma LiveIsCoAccessible(t: SSFST, q: nat)
    requires t.Valid() && q < t.Size()
    ensures Live(GraphOf(t), q) <==> CoAccessible(t, q)
  {
    hide Reach, Rel, GraphOf, RowOf;
    var g := GraphOf(t);
    if Live(g, q) {
      var k, v :| Reach(g, q, k, v);
      var u := ReachIsRel(t, q, k, v);
    }
    if CoAccessible(t, q) {
      var u, v :| Rel(t, q, u, v);
      RelReaches(t, q, u, v);
    }
  }

  // ---------- the pushed words, on the transducer ----------

  ghost predicate PrefixOfOutputs(t: SSFST, q: nat, c: Word)
    requires t.Valid() && q < t.Size()
  {
    forall u, v :: Rel(t, q, u, v) ==> c <= v
  }

  /** s is the longest common prefix of all outputs over all completions from q. */
  ghost predicate IsLcp(t: SSFST, q: nat, s: Word)
    requires t.Valid() && q < t.Size()
  {
    PrefixOfOutputs(t, q, s) && forall c :: PrefixOfOutputs(t, q, c) ==> c <= s
  }

  /** No arc from a co-accessible state into a dead one cuts short what the state's outputs share. */
  ghost predicate DeadArcsAgree(t: SSFST)
    requires t.Valid()
  {
    forall q, c, a :: (0 <= q < t.Size() && CoAccessible(t, q) && PrefixOfOutputs(t, q, c)
                       && a in t.arcs[q] && !CoAccessible(t, a.to)) ==> c <= a.out
  }

  lemma CompletionExits(t: SSFST, q: nat, c: Word)
    requires t.Valid() && q < t.Size() && PrefixOfAll(GraphOf(t), q, c)
    ensures PrefixOfOutputs(t, q, c)
  {
    hide Reach, Rel, Exits, GraphOf, RowOf;
    forall u, v | Rel(t, q, u, v) ensures c <= v {
      RelReaches(t, q, u, v);
      ReachExits(GraphOf(t), q, |u| + 1, v);
    }
  }

  lemma CommonAfterArc(t: SSFST, q: nat, a: Arc, c: Word, u: Word, v: Word)
    requires t.Valid() && q < t.Size() && a in t.arcs[q] && PrefixOfOutputs(t, q, c) && Rel(t, a.to, u, v)
    ensures if |c| <= |a.out| then c <= a.out else a.out <= c && PrefixOfOutputs(t, a.to, c[|a.out|..])
  {
    hide Rel;
    RelStep(t, q, a, u, v);
    if |c| > |a.out| {
      var d := c[|a.out|..];
      assert c == a.out + d;
      forall u, v | Rel(t, a.to, u, v) ensures d <= v {
        RelStep(t, q, a, u, v);
        PrefixCancel(a.out, d, v);
      }
    }
  }

  lemma CommonOnExits(t: SSFST, q: nat, c: Word, k: nat, v: Word)
    requires t.Valid() && q < t.Size() && CoAccessible(t, q) && PrefixOfOutputs(t, q, c) && DeadArcsAgree(t)
    requires Exits(GraphOf(t), q, k, v)
    ensures c <= v
    decreases k
  {
    hide GraphOf, RowOf, Exits, Live, Rel, CoAccessible, PrefixOfOutputs;
    LiveIsCoAccessible(t, q);
    var g := GraphOf(t);
    if k == 0 {
      NoSteps(g, q, v);
      assert false;
    } else {
      var e, rest := FirstExitEdge(g, q, k, v);
      var a := EdgeCases(t, q, e);
      if a.None? {
        FinalOutput(t, q, e.w, c);
      } else if CoAccessible(t, a.value.to) {
        var u, w := SomeOutput(t, a.value.to);
        CommonAfterArc(t, q, a.value, c, u, w);
        if |c| > |e.w| {
          CommonOnExits(t, a.value.to, c[|e.w|..], k - 1, rest);
          PrefixCancel(e.w, c[|e.w|..], rest);
        }
      } else {
        assert c <= a.value.out;
      }
    }
  }

  lemma SomeOutput(t: SSFST, q: nat) returns (u: Word, v: Word)
    requires t.Valid() && q < t.Size() && CoAccessible(t, q)
    ensures Rel(t, q, u, v)
  {
    u, v :| Rel(t, q, u, v);
  }

  lemma FinalOutput(t: SSFST, q: nat, w: Word, c: Word)
    requires t.Valid() && q < t.Size() && t.psi[q] == Some(w) && PrefixOfOutputs(t, q, c)
    ensures c <= w
  {
    assert Rel(t, q, [], w);
  }

  /** The pushed words are the longest common prefixes of the outputs exactly when the dead arcs agree,
      in particular when there are no dead states. */
  lemma PushIsLcpIff(t: SSFST)
    requires t.Valid()
    ensures DeadArcsAgree(t) <==>
            forall q, c :: 0 <= q < t.Size() && CoAccessible(t, q) ==> (PrefixOfAll(GraphOf(t), q, c) <==> PrefixOfOutputs(t, q, c))
  {
    hide GraphOf, Rel, Exits, CoAccessible, RowOf, Live;
    var g := GraphOf(t);
    if DeadArcsAgree(t) {
      forall q, c | 0 <= q < t.Size() && CoAccessible(t, q) ensures PrefixOfAll(g, q, c) <==> PrefixOfOutputs(t, q, c) {
        if PrefixOfAll(g, q, c) {
          CompletionExits(t, q, c);
        }
        if PrefixOfOutputs(t, q, c) {
          forall k, v | Exits(g, q, k, v) ensures c <= v {
            CommonOnExits(t, q, c, k, v);
          }
        }
      }
    }
    if forall q, c :: 0 <= q < t.Size() && CoAccessible(t, q) ==> (PrefixOfAll(g, q, c) <==> PrefixOfOutputs(t, q, c)) {
      forall q, c, a | 0 <= q < t.Size() && CoAccessible(t, q) && PrefixOfOutputs(t, q, c)
                       && a in t.arcs[q] && !CoAccessible(t, a.to)
        ensures c <= a.out
      {
        LiveIsCoAccessible(t, q);
        LiveIsCoAccessible(t, a.to);
        ArcEdge(t, q, a);
        NoSteps(g, a.to, []);
        ExitsStep(g, q, Edge(a.out, a.to), 0, []);
        assert a.out + [] == a.out;
        assert PrefixOfAll(g, q, c);
      }
    }
  }

  /** On such transducers the pushed word is the longest common prefix of all outputs over all completions. */
  lemma PushIsLcp(t: SSFST, q: nat, s: Word)
    requires t.Valid() && q < t.Size() && CoAccessible(t, q) && DeadArcsAgree(t)
    ensures IsPush(GraphOf(t), q, s) <==> IsLcp(t, q, s)
  {
    hide PrefixOfAll, PrefixOfOutputs, DeadArcsAgree, CoAccessible, GraphOf;
    PushIsLcpIff(t);
    assert forall c :: PrefixOfAll(GraphOf(t), q, c) <==> PrefixOfOutputs(t, q, c);
  }

  // ---------- rebuilding with the pushed words ----------

  ghost predicate CanStrip(t: SSFST, sigma: seq<Word>)
    requires t.Valid()
  {
    && |sigma| == t.Size()
    && (forall q, a :: 0 <= q < t.Size() && a in t.arcs[q] ==> sigma[q] <= a.out + sigma[a.to])
    && (forall q :: 0 <= q < t.Size() && t.psi[q].Some? ==> sigma[q] <= t.psi[q].value)
  }

  /** r is t with sigma(q) taken off the front of everything that leaves q, and sigma(0) added to the initial output. */
  ghost predicate IsRebuilt(t: SSFST, sigma: seq<Word>, r: SSFST)
    requires t.Valid()
  {
    && CanStrip(t, sigma) && |r.arcs| == |r.psi| == t.Size()
    && (forall q {:trigger r.arcs[q]} :: 0 <= q < t.Size() ==> |r.arcs[q]| == |t.arcs[q]|)
    && (forall q, i {:trigger r.arcs[q][i]} :: 0 <= q < t.Size() && 0 <= i < |t.arcs[q]| ==>
          ArcStripped(sigma, q, t.arcs[q][i], r.arcs[q][i]))
    && (forall q {:trigger r.psi[q]} :: 0 <= q < t.Size() ==> PsiStripped(sigma[q], t.psi[q], r.psi[q]))
    && r.initialOut == t.initialOut + At(sigma, 0)
  }

  ghost predicate ArcStripped(sigma: seq<Word>, q: nat, a: Arc, b: Arc)
    requires q < |sigma|
  {
    b.sym == a.sym && b.to == a.to && sigma[q] + b.out == a.out + At(sigma, a.to)
  }

  ghost predicate PsiStripped(s: Word, x: Option<Word>, y: Option<Word>) {
    (x.None? && y.None?) || (x.Some? && y.Some? && s + y.value == x.value)
  }

  method Rebuild(t: SSFST, sigma: seq<Word>) returns (r: SSFST)
    requires t.Valid() && t.Size() > 0 && CanStrip(t, sigma)
    ensures IsRebuilt(t, sigma, r)
  {
    var arcs, psi := [], [];
    for q := 0 to t.Size()
      invariant |arcs| == |psi| == q
      invariant forall p {:trigger arcs[p]} :: 0 <= p < q ==> |arcs[p]| == |t.arcs[p]|
      invariant forall p, i {:trigger arcs[p][i]} :: 0 <= p < q && 0 <= i < |t.arcs[p]| ==>
                  ArcStripped(sigma, p, t.arcs[p][i], arcs[p][i])
      invariant forall p {:trigger psi[p]} :: 0 <= p < q ==> PsiStripped(sigma[p], t.psi[p], psi[p])
    {
      var row := [];
      for i := 0 to |t.arcs[q]|
        invariant |row| == i && forall j :: 0 <= j < i ==> ArcStripped(sigma, q, t.arcs[q][j], row[j])
      {
        var a := t.arcs[q][i];
        row := row + [Arc(a.sym, InvMul(sigma[q], a.out + sigma[a.to]), a.to)];
      }
      var newPsi := if t.psi[q].Some? then Some(InvMul(sigma[q], t.psi[q].value)) else None;
      arcs, psi := arcs + [row], psi + [newPsi];
    }
    r := SSFST(arcs, psi, t.initialOut + sigma[0]);
  }

  lemma RebuiltIsValid(t: SSFST, sigma: seq<Word>, r: SSFST)
    requires t.Valid() && IsRebuilt(t, sigma, r)
    ensures r.Valid() && r.Size() == t.Size() == |sigma|
  {
    forall q, b | 0 <= q < r.Size() && b in r.arcs[q] ensures b.to < r.Size() {
      var a := OriginalArc(t, sigma, r, q, b);
    }
  }

  lemma OriginalArc(t: SSFST, sigma: seq<Word>, r: SSFST, q: nat, b: Arc) returns (a: Arc)
    requires t.Valid() && IsRebuilt(t, sigma, r) && q < t.Size() && b in r.arcs[q]
    ensures |sigma| == t.Size() && a in t.arcs[q] && ArcStripped(sigma, q, a, b)
  {
    var i :| 0 <= i < |r.arcs[q]| && r.arcs[q][i] == b;
    a := t.arcs[q][i];
  }

  lemma RebuiltArc(t: SSFST, sigma: seq<Word>, r: SSFST, q: nat, a: Arc) returns (b: Arc)
    requires t.Valid() && IsRebuilt(t, sigma, r) && q < t.Size() && a in t.arcs[q]
    ensures |sigma| == t.Size() && b in r.arcs[q] && ArcStripped(sigma, q, a, b)
  {
    var i :| 0 <= i < |t.arcs[q]| && t.arcs[q][i] == a;
    b := r.arcs[q][i];
  }

  lemma RebuiltPsi(t: SSFST, sigma: seq<Word>, r: SSFST, q: nat)
    requires t.Valid() && IsRebuilt(t, sigma, r) && q < t.Size()
    ensures |sigma| == t.Size() && PsiStripped(sigma[q], t.psi[q], r.psi[q])
  {
  }

  // ---------- the meaning is kept ----------

  lemma RelOfRebuilt(t: SSFST, sigma: seq<Word>, r: SSFST, q: nat, u: Word, w: Word)
    requires t.Valid() && IsRebuilt(t, sigma, r) && r.Valid() && r.Size() == t.Size() == |sigma| && q < t.Size()
    requires Rel(r, q, u, w)
    ensures Rel(t, q, u, sigma[q] + w)
    decreases u
  {
    hide IsRebuilt, Rel;
    if u == [] {
      RebuiltPsi(t, sigma, r, q);
      RelEnd(t, q, sigma[q] + w);
      RelEnd(r, q, w);
    } else {
      var b, rest := FirstArc(r, q, u, w);
      var a := OriginalArc(t, sigma, r, q, b);
      RelOfRebuilt(t, sigma, r, a.to, u[1..], rest);
      RelStep(t, q, a, u[1..], sigma[a.to] + rest);
      Regroup(sigma[q], b.out, a.out, sigma[a.to], rest);
    }
  }

  lemma RelToRebuilt(t: SSFST, sigma: seq<Word>, r: SSFST, q: nat, u: Word, v: Word)
    requires t.Valid() && IsRebuilt(t, sigma, r) && r.Valid() && r.Size() == t.Size() == |sigma| && q < t.Size()
    requires Rel(t, q, u, v)
    ensures sigma[q] <= v && Rel(r, q, u, v[|sigma[q]|..])
    decreases u
  {
    hide IsRebuilt, Rel;
    if u == [] {
      RebuiltPsi(t, sigma, r, q);
      RelEnd(t, q, v);
      RelEnd(r, q, v[|sigma[q]|..]);
    } else {
      var a, rest := FirstArc(t, q, u, v);
      RelToRebuilt(t, sigma, r, a.to, u[1..], rest);
      var s := sigma[a.to];
      var b := RebuiltArc(t, sigma, r, q, a);
      RelStep(r, q, b, u[1..], rest[|s|..]);
      Regroup(sigma[q], b.out, a.out, s, rest[|s|..]);
      assert rest == s + rest[|s|..];
      assert v == sigma[q] + (b.out + rest[|s|..]);
    }
  }

  /** Moving outputs to the front changes no input-output pair. */
  lemma RebuiltKeepsMeaning(t: SSFST, sigma: seq<Word>, r: SSFST, u: Word, v: Word)
    requires t.Valid() && IsRebuilt(t, sigma, r) && r.Valid() && r.Size() == t.Size() == |sigma| && t.Size() > 0
    requires r.initialOut == t.initialOut + sigma[0]
    ensures Translates(t, u, v) <==> Translates(r, u, v)
  {
    hide IsRebuilt, Rel;
    var i, s := t.initialOut, sigma[0];
    if Translates(t, u, v) {
      var rest := v[|i|..];
      RelToRebuilt(t, sigma, r, 0, u, rest);
      assert v == i + rest && rest == s + rest[|s|..];
      assert v == (i + s) + rest[|s|..];
    }
    if Translates(r, u, v) {
      var rest := v[|i + s|..];
      RelOfRebuilt(t, sigma, r, 0, u, rest);
      assert v == (i + s) + rest == i + (s + rest);
    }
  }

  // ---------- nothing is left to push ----------

  lemma PushAllowsStripping(t: SSFST, sigma: seq<Word>)
    requires t.Valid() && AllPush(GraphOf(t), sigma)
    ensures CanStrip(t, sigma)
  {
    hide AllPush, RowOf;
    var g := GraphOf(t);
    PushStrips(g, sigma);
    forall q, a | 0 <= q < t.Size() && a in t.arcs[q] ensures sigma[q] <= a.out + sigma[a.to] {
      ArcEdge(t, q, a);
      assert Edge(a.out, a.to) in g[q];
    }
    forall q | 0 <= q < t.Size() && t.psi[q].Some? ensures sigma[q] <= t.psi[q].value {
      PsiEdge(t, q);
      assert Edge(t.psi[q].value, |g|) in g[q];
      assert t.psi[q].value + [] == t.psi[q].value;
    }
  }

  lemma StripIsQuotient(s: Word, x: Word, y: Word)
    requires s + x == y
    ensures s <= y && InvMul(s, y) == x
  {
  }

  lemma RebuiltRow(t: SSFST, sigma: seq<Word>, r: SSFST, q: nat)
    requires t.Valid() && r.Valid() && IsRebuilt(t, sigma, r) && r.Size() == t.Size() == |sigma| && q < t.Size()
    requires forall e :: e in RowOf(t, q) ==> sigma[q] <= e.w + At(sigma, e.node)
    ensures RowOf(r, q) == PushedRow(RowOf(t, q), sigma, q)
  {
    var old_, new_ := RowOf(t, q), RowOf(r, q);
    RebuiltPsi(t, sigma, r, q);
    forall i | 0 <= i < |old_| ensures new_[i] == PushedRow(old_, sigma, q)[i] {
      if i < |t.arcs[q]| {
        assert ArcStripped(sigma, q, t.arcs[q][i], r.arcs[q][i]);
        StripIsQuotient(sigma[q], new_[i].w, old_[i].w + At(sigma, old_[i].node));
      } else {
        assert old_[i].w + [] == old_[i].w;
        StripIsQuotient(sigma[q], new_[i].w, old_[i].w);
      }
    }
  }

  lemma RebuiltGraph(t: SSFST, sigma: seq<Word>, r: SSFST)
    requires t.Valid() && r.Valid() && IsRebuilt(t, sigma, r) && r.Size() == t.Size() == |sigma|
    requires AllPush(GraphOf(t), sigma)
    ensures IsPushed(GraphOf(t), sigma, GraphOf(r))
  {
    hide IsRebuilt, RowOf, AllPush, PushedRow;
    var g, h := GraphOf(t), GraphOf(r);
    PushStrips(g, sigma);
    forall q | 0 <= q < |g| ensures h[q] == PushedRow(g[q], sigma, q) {
      RebuiltRow(t, sigma, r, q);
    }
  }

  /** The result of `canonicalizeFST`. */
  ghost predicate IsCanonicalOf(t: SSFST, r: SSFST)
    requires t.Valid()
  {
    if t.Size() == 0 then r == SSFST([], [], [])
    else exists sigma :: AllPush(GraphOf(t), sigma) && IsRebuilt(t, sigma, r)
  }

  /** In the result every state's outputs, over all its exits, have only the empty word as a common prefix. */
  lemma ResultIsOnward(t: SSFST, r: SSFST, q: nat)
    requires t.Valid() && IsCanonicalOf(t, r) && q < t.Size()
    ensures r.Valid() && r.Size() == t.Size() && IsPush(GraphOf(r), q, [])
    ensures CoAccessible(r, q) <==> CoAccessible(t, q)
  {
    hide AllPush, IsRebuilt, GraphOf, RowOf, IsPush, CoAccessible, Live;
    var sigma :| AllPush(GraphOf(t), sigma) && IsRebuilt(t, sigma, r);
    RebuiltIsValid(t, sigma, r);
    RebuiltGraph(t, sigma, r);
    PushedIsOnward(GraphOf(t), sigma, GraphOf(r), q);
    LivePushed(GraphOf(t), sigma, GraphOf(r), q);
    LiveIsCoAccessible(t, q);
    LiveIsCoAccessible(r, q);
  }

  lemma SamePush(g: Graph, q: nat, a: Word, b: Word)
    requires IsGraph(g) && q <= |g| && IsPush(g, q, a) && IsPush(g, q, b)
    ensures a == b
  {
    hide PrefixOfAll;
    assert a <= b && b <= a;
  }

  /** Canonicalizing twice changes nothing the second time, labels and initial output included. */
  lemma CanonicalizeIdempotent(t: SSFST, r: SSFST, r': SSFST)
    requires t.Valid() && r.Valid() && IsCanonicalOf(t, r) && IsCanonicalOf(r, r')
    ensures r' == r
  {
    if t.Size() > 0 {
      ResultIsOnward(t, r, 0);
      var sigma :| AllPush(GraphOf(r), sigma) && IsRebuilt(r, sigma, r');
      hide IsPush, GraphOf;
      forall q | 0 <= q < r.Size() ensures sigma[q] == [] {
        ResultIsOnward(t, r, q);
        assert IsPush(GraphOf(r), q, sigma[q]);
        SamePush(GraphOf(r), q, sigma[q], []);
      }
      SameWhenNothingStripped(r, sigma, r');
    }
  }

  lemma SameWhenNothingStripped(r: SSFST, sigma: seq<Word>, r': SSFST)
    requires r.Valid() && IsRebuilt(r, sigma, r') && r.Size() > 0 && forall q :: 0 <= q < |sigma| ==> sigma[q] == []
    ensures r' == r
  {
    assert forall w: Word :: [] + w == w && w + [] == w;
    forall q, i | 0 <= q < r.Size() && 0 <= i < |r.arcs[q]| ensures r'.arcs[q][i] == r.arcs[q][i] {
      assert ArcStripped(sigma, q, r.arcs[q][i], r'.arcs[q][i]);
    }
    forall q | 0 <= q < r.Size() ensures r'.psi[q] == r.psi[q] && r'.arcs[q] == r.arcs[q] {
      RebuiltPsi(r, sigma, r', q);
    }
    assert r'.arcs == r.arcs && r'.psi == r.psi;
  }

  // ---------- isCanonical ----------

  /** c is a prefix of q's final output and of the output of every arc of q. */
  ghost predicate CommonTo(t: SSFST, q: nat, c: Word)
    requires t.Valid() && q < t.Size()
  {
    (t.psi[q].Some? ==> c <= t.psi[q].value) && forall a :: a in t.arcs[q] ==> c <= a.out
  }

  ghost predicate HasOutputs(t: SSFST, q: nat)
    requires t.Valid() && q < t.Size()
  {
    t.psi[q].Some? || t.arcs[q] != []
  }

  ghost predicate NothingShared(t: SSFST, q: nat)
    requires t.Valid() && q < t.Size()
  {
    HasOutputs(t, q) ==> forall c :: CommonTo(t, q, c) ==> c == []
  }

  /** x is the greatest common prefix of q's final output and the first n arcs. */
  ghost predicate GcpOfFirst(t: SSFST, q: nat, n: nat, x: Word)
    requires t.Valid() && q < t.Size() && n <= |t.arcs[q]|
  {
    && (t.psi[q].Some? ==> x <= t.psi[q].value) && (forall j :: 0 <= j < n ==> x <= t.arcs[q][j].out)
    && forall c :: CommonTo(t, q, c) ==> c <= x
  }

  lemma GcpSettles(t: SSFST, q: nat, n: nat, x: Word)
    requires t.Valid() && q < t.Size() && n <= |t.arcs[q]| && HasOutputs(t, q) && GcpOfFirst(t, q, n, x)
    requires n == |t.arcs[q]| || x == []
    ensures x == [] <==> NothingShared(t, q)
  {
    if n == |t.arcs[q]| {
      assert CommonTo(t, q, x);
    }
  }

  lemma GcpOfOneMore(t: SSFST, q: nat, n: nat, x: Word)
    requires t.Valid() && q < t.Size() && n < |t.arcs[q]| && GcpOfFirst(t, q, n, x)
    ensures GcpOfFirst(t, q, n + 1, Gcp(x, t.arcs[q][n].out))
  {
    var out := t.arcs[q][n].out;
    assert t.arcs[q][n] in t.arcs[q];
    forall c | CommonTo(t, q, c) ensures c <= Gcp(x, out) {
      GcpGreatest(x, out, c);
    }
  }

  method IsCanonicalState(t: SSFST, q: nat) returns (ok: bool)
    requires t.Valid() && q < t.Size()
    ensures ok <==> NothingShared(t, q)
  {
    hide NothingShared;
    var haveCandidate := t.psi[q].Some?;
    var gcp := if haveCandidate then t.psi[q].value else [];
    var i := 0;
    while i < |t.arcs[q]|
      invariant i <= |t.arcs[q]| && haveCandidate == (t.psi[q].Some? || i > 0)
      invariant haveCandidate ==> GcpOfFirst(t, q, i, gcp)
    {
      if haveCandidate && gcp == [] {
        break;
      }
      var out := t.arcs[q][i].out;
      assert t.arcs[q][i] in t.arcs[q];
      if !haveCandidate {
        gcp, haveCandidate := out, true;
      } else {
        GcpOfOneMore(t, q, i, gcp);
        gcp := Gcp(gcp, out);
      }
      i := i + 1;
    }
    ok := !(haveCandidate && gcp != []);
    if haveCandidate {
      GcpSettles(t, q, i, gcp);
    } else {
      NoOutputsShareNothing(t, q);
    }
  }

  lemma NoOutputsShareNothing(t: SSFST, q: nat)
    requires t.Valid() && q < t.Size() && !HasOutputs(t, q)
    ensures NothingShared(t, q)
  {
  }

  ghost predicate Canonical(t: SSFST)
    requires t.Valid()
  {
    forall q :: 0 <= q < t.Size() ==> NothingShared(t, q)
  }

  method IsCanonical(t: SSFST) returns (b: bool)
    requires t.Valid()
    ensures b <==> Canonical(t)
  {
    hide NothingShared;
    for q := 0 to t.Size()
      invariant forall p :: 0 <= p < q ==> NothingShared(t, p)
    {
      var ok := IsCanonicalState(t, q);
      if !ok {
        return false;
      }
    }
    return true;
  }

  /** A word common to one step out of a co-accessible state is common to everything that leaves it. */
  lemma OneStepIsEnough(t: SSFST, q: nat, c: Word)
    requires t.Valid() && q < t.Size() && CoAccessible(t, q) && CommonTo(t, q, c)
    ensures PrefixOfAll(GraphOf(t), q, c)
  {
    hide Exits, GraphOf, RowOf, CoAccessible, Live;
    var g := GraphOf(t);
    LiveIsCoAccessible(t, q);
    forall k, v | Exits(g, q, k, v) ensures c <= v {
      if k == 0 {
        NoSteps(g, q, v);
      } else {
        var e, rest := FirstExitEdge(g, q, k, v);
        var a := EdgeCases(t, q, e);
        assert c <= e.w;
      }
    }
  }

  lemma LiveStatesShareNothing(t: SSFST, q: nat)
    requires t.Valid() && q < t.Size() && CoAccessible(t, q) && IsPush(GraphOf(t), q, [])
    ensures NothingShared(t, q)
  {
    hide PrefixOfAll, CommonTo, CoAccessible, GraphOf;
    forall c | CommonTo(t, q, c) ensures c == [] {
      OneStepIsEnough(t, q, c);
    }
  }

  /** Pushing leaves the arcs of a state from which nothing is accepted as they were. */
  lemma DeadStatesUnchanged(t: SSFST, r: SSFST, q: nat)
    requires t.Valid() && r.Valid() && r.Size() == t.Size() && IsCanonicalOf(t, r) && q < t.Size() && !CoAccessible(t, q)
    ensures r.arcs[q] == t.arcs[q] && r.psi[q] == t.psi[q] == None
  {
    hide GraphOf, RowOf, IsPush, CoAccessible, Live;
    var sigma :| AllPush(GraphOf(t), sigma) && IsRebuilt(t, sigma, r);
    var g := GraphOf(t);
    LiveIsCoAccessible(t, q);
    DeadPushesNothing(g, q, sigma[q]);
    if t.psi[q].Some? {
      AcceptsAtOnce(t, q);
    }
    forall i | 0 <= i < |t.arcs[q]| ensures r.arcs[q][i] == t.arcs[q][i] {
      var a := t.arcs[q][i];
      assert a in t.arcs[q];
      if CoAccessible(t, a.to) {
        CoAccessibleStep(t, q, a);
      }
      LiveIsCoAccessible(t, a.to);
      DeadPushesNothing(g, a.to, sigma[a.to]);
      var b := r.arcs[q][i];
      assert ArcStripped(sigma, q, a, b);
      assert [] + b.out == b.out && a.out + [] == a.out;
    }
    RebuiltPsi(t, sigma, r, q);
    assert r.arcs[q] == t.arcs[q];
  }

  lemma SameOutputs(t: SSFST, r: SSFST, q: nat)
    requires t.Valid() && r.Valid() && r.Size() == t.Size() && q < t.Size() && r.arcs[q] == t.arcs[q] && r.psi[q] == t.psi[q]
    ensures NothingShared(r, q) <==> NothingShared(t, q)
  {
    assert forall c :: CommonTo(r, q, c) <==> CommonTo(t, q, c);
  }

  lemma AcceptsAtOnce(t: SSFST, q: nat)
    requires t.Valid() && q < t.Size() && t.psi[q].Some?
    ensures CoAccessible(t, q)
  {
    assert Rel(t, q, [], t.psi[q].value);
  }

  lemma CoAccessibleStep(t: SSFST, q: nat, a: Arc)
    requires t.Valid() && q < t.Size() && a in t.arcs[q] && CoAccessible(t, a.to)
    ensures CoAccessible(t, q)
  {
    var u, v :| Rel(t, a.to, u, v);
    RelStep(t, q, a, u, v);
  }

  /** `isCanonical` accepts the result exactly when it accepted every dead state of the input. */
  lemma ResultIsCanonicalIff(t: SSFST, r: SSFST)
    requires t.Valid() && r.Valid() && r.Size() == t.Size() > 0 && IsCanonicalOf(t, r)
    ensures Canonical(r) <==> forall q :: 0 <= q < t.Size() && !CoAccessible(t, q) ==> NothingShared(t, q)
  {
    hide IsCanonicalOf, NothingShared, CoAccessible, IsPush, GraphOf;
    forall q | 0 <= q < t.Size() ensures NothingShared(r, q) <==> CoAccessible(t, q) || NothingShared(t, q) {
      if CoAccessible(t, q) {
        ResultIsOnward(t, r, q);
        LiveStatesShareNothing(r, q);
      } else {
        DeadStatesUnchanged(t, r, q);
        SameOutputs(t, r, q);
      }
    }
  }

  // ---------- canonicalizeFST ----------

  /** `rev` holds the reversed edges of the states below q and of the first edges `es` of q. */
  ghost predicate ReversedUpTo(g: Graph, rev: Graph, q: nat, es: seq<Edge>) {
    && |rev| == |g| + 1
    && (forall x, r :: 0 <= x < |rev| && r in rev[x] ==> r.node < |g|)
    && forall p: nat, w, x: nat {:trigger HasEdge(g, p, w, x)} {:trigger HasEdge(rev, x, w, p)} ::
         HasEdge(rev, x, w, p) <==> (p < q && HasEdge(g, p, w, x)) || (p == q && Edge(w, x) in es)
  }

  lemma ReverseOneMore(g: Graph, rev: Graph, q: nat, es: seq<Edge>, e: Edge)
    requires q < |g| && e.node <= |g| && ReversedUpTo(g, rev, q, es)
    ensures ReversedUpTo(g, rev[e.node := rev[e.node] + [Edge(e.w, q)]], q, es + [e])
  {
    var rev' := rev[e.node := rev[e.node] + [Edge(e.w, q)]];
    forall p: nat, w, x: nat
      ensures HasEdge(rev', x, w, p) <==> (p < q && HasEdge(g, p, w, x)) || (p == q && Edge(w, x) in es + [e])
    {
      assert HasEdge(rev, x, w, p) <==> (p < q && HasEdge(g, p, w, x)) || (p == q && Edge(w, x) in es);
      assert HasEdge(rev', x, w, p) <==> HasEdge(rev, x, w, p) || (x == e.node && w == e.w && p == q);
    }
  }

  lemma ReverseRowDone(g: Graph, rev: Graph, q: nat)
    requires q < |g| && ReversedUpTo(g, rev, q, g[q])
    ensures ReversedUpTo(g, rev, q + 1, [])
  {
  }

  method BuildEdges(t: SSFST) returns (fwd: Graph, rev: Graph)
    requires t.Valid()
    ensures fwd == GraphOf(t) && Reverses(fwd, rev)
  {
    hide RowOf, ReversedUpTo;
    ghost var g := GraphOf(t);
    fwd, rev := [], seq(t.Size() + 1, _ => []);
    NothingReversed(g);
    for q := 0 to t.Size()
      invariant fwd == g[..q] && |rev| == |g| + 1 && ReversedUpTo(g, rev, q, [])
    {
      var es := [];
      RowSizes(t, q);
      for i := 0 to |t.arcs[q]|
        invariant es == RowOf(t, q)[..i] && |rev| == |g| + 1 && ReversedUpTo(g, rev, q, es)
      {
        var a := t.arcs[q][i];
        ReverseOneMore(g, rev, q, es, Edge(a.out, a.to));
        es, rev := es + [Edge(a.out, a.to)], rev[a.to := rev[a.to] + [Edge(a.out, q)]];
      }
      if t.psi[q].Some? {
        var w := t.psi[q].value;
        ReverseOneMore(g, rev, q, es, Edge(w, t.Size()));
        es, rev := es + [Edge(w, t.Size())], rev[t.Size() := rev[t.Size()] + [Edge(w, q)]];
      }
      assert es == RowOf(t, q);
      ReverseRowDone(g, rev, q);
      fwd := fwd + [es];
    }
    AllReversed(g, rev);
  }

  lemma NothingReversed(g: Graph)
    ensures ReversedUpTo(g, seq(|g| + 1, _ => []), 0, [])
  {
  }

  lemma AllReversed(g: Graph, rev: Graph)
    requires ReversedUpTo(g, rev, |g|, [])
    ensures Reverses(g, rev)
  {
  }

  lemma RowSizes(t: SSFST, q: nat)
    requires t.Valid() && q < t.Size()
    ensures |RowOf(t, q)| == |t.arcs[q]| + if t.psi[q].Some? then 1 else 0
    ensures forall i :: 0 <= i < |t.arcs[q]| ==> RowOf(t, q)[i] == Edge(t.arcs[q][i].out, t.arcs[q][i].to)
    ensures t.psi[q].Some? ==> RowOf(t, q)[|t.arcs[q]|] == Edge(t.psi[q].value, t.Size())
  {
  }

  method CanonicalizeFST(t: SSFST) returns (r: SSFST)
    requires t.Valid()
    ensures IsCanonicalOf(t, r) && r.Valid() && r.Size() == t.Size()
    ensures forall u, v :: Translates(t, u, v) <==> Translates(r, u, v)
    ensures forall q :: 0 <= q < r.Size() ==> IsPush(GraphOf(r), q, [])
    ensures Canonical(r) <==> forall q :: 0 <= q < t.Size() && !CoAccessible(t, q) ==> NothingShared(t, q)
  {
    hide Live, Exits, Reach, Witnessed, RowOf, Reverses, Above, UnderWitnesses, IsRebuilt, IsPush, NothingShared, CoAccessible;
    if t.Size() == 0 {
      return SSFST([], [], []);
    }
    var fwd, rev := BuildEdges(t);
    var has, wit, steps, via := FindWitnesses(fwd, rev);
    var hasEstimate, estimate := SeedEstimates(fwd, has, wit, steps, via);
    var sigma := Relax(fwd, rev, has, wit, steps, via, hasEstimate, estimate);
    PushAllowsStripping(t, sigma);
    r := Rebuild(t, sigma);
    RebuiltIsValid(t, sigma, r);
    FromRebuilt(t, sigma, r);
  }

  lemma FromRebuilt(t: SSFST, sigma: seq<Word>, r: SSFST)
    requires t.Valid() && r.Valid() && r.Size() == t.Size() == |sigma| && t.Size() > 0
    requires AllPush(GraphOf(t), sigma) && IsRebuilt(t, sigma, r)
    ensures IsCanonicalOf(t, r)
    ensures forall u, v :: Translates(t, u, v) <==> Translates(r, u, v)
    ensures forall q :: 0 <= q < r.Size() ==> IsPush(GraphOf(r), q, [])
    ensures Canonical(r) <==> forall q :: 0 <= q < t.Size() && !CoAccessible(t, q) ==> NothingShared(t, q)
  {
    hide Translates, IsPush, Canonical, CoAccessible, NothingShared, GraphOf;
    assert r.initialOut == t.initialOut + sigma[0];
    forall u, v ensures Translates(t, u, v) <==> Translates(r, u, v) {
      RebuiltKeepsMeaning(t, sigma, r, u, v);
    }
    assert IsCanonicalOf(t, r);
    forall q | 0 <= q < r.Size() ensures IsPush(GraphOf(r), q, []) {
      ResultIsOnward(t, r, q);
    }
    ResultIsCanonicalIff(t, r);
  }

  method SeedEstimates(g: Graph, has: seq<bool>, wit: seq<Word>, ghost steps: seq<nat>, ghost via: seq<Edge>)
    returns (hasEstimate: seq<bool>, estimate: seq<Word>)
    requires IsGraph(g) && Witnessed(g, has, wit, steps, via) && forall p :: 0 <= p <= |g| ==> (has[p] <==> Live(g, p))
    ensures |has| == |wit| == |g| + 1 && hasEstimate == has[..|g|] && Estimated(g, has, wit, estimate)
  {
    assert |has| == |wit| == |g| + 1;
    hide Live, Above, UnderWitnesses, Witnessed;
    hasEstimate, estimate := [], [];
    for q := 0 to |g|
      invariant |estimate| == q && hasEstimate == has[..q]
      invariant forall p {:trigger Above(g, p, estimate[p])} {:trigger UnderWitnesses(g, has, wit, p, estimate[p])} ::
                  0 <= p < q && has[p] ==> Above(g, p, estimate[p]) && UnderWitnesses(g, has, wit, p, estimate[p])
    {
      var b, e := SeedEstimate(g, has, wit, steps, via, q);
      hasEstimate, estimate := hasEstimate + [b], estimate + [e];
    }
  }

  // ---------- a dead successor enters the seed with the empty word ----------

  /** State 0 emits only 1.2 and is final; its arc into the dead state 1 emits 1. */
  const DEAD_EXAMPLE := SSFST([[Arc(7, [1], 1)], [Arc(7, [3], 1)]], [Some([1, 2]), None], [])

  /** All outputs from state 0 start with 1.2, yet only 1 is pushed, and the result is not canonical. */
  lemma DeadSuccessorShortensPush(r: SSFST)
    requires IsCanonicalOf(DEAD_EXAMPLE, r)
    ensures DEAD_EXAMPLE.Valid() && IsLcp(DEAD_EXAMPLE, 0, [1, 2])
    ensures IsPush(GraphOf(DEAD_EXAMPLE), 0, [1])
    ensures r.Valid() && !Canonical(r)
  {
    var t := DEAD_EXAMPLE;
    forall u, v ensures !Rel(t, 1, u, v) && (Rel(t, 0, u, v) <==> u == [] && v == [1, 2]) {
      StateOneIsDead(u, v);
      if u != [] && Rel(t, 0, u, v) {
        var a, rest := FirstArc(t, 0, u, v);
        StateOneIsDead(u[1..], rest);
      }
    }
    assert Rel(t, 0, [], [1, 2]);
    assert !CoAccessible(t, 1) && CoAccessible(t, 0);
    ExampleExits();
    assert CommonTo(t, 1, [3]) && !NothingShared(t, 1);
    ResultIsOnward(t, r, 0);
    ResultIsCanonicalIff(t, r);
  }

  lemma StateOneIsDead(u: Word, v: Word)
    ensures !Rel(DEAD_EXAMPLE, 1, u, v)
    decreases u
  {
    if u != [] && Rel(DEAD_EXAMPLE, 1, u, v) {
      var a, rest := FirstArc(DEAD_EXAMPLE, 1, u, v);
      StateOneIsDead(u[1..], rest);
    }
  }

  lemma ExampleExits()
    requires !CoAccessible(DEAD_EXAMPLE, 1) && CoAccessible(DEAD_EXAMPLE, 0)
    ensures IsPush(GraphOf(DEAD_EXAMPLE), 0, [1])
  {
    hide Live, CoAccessible, Exits;
    var t := DEAD_EXAMPLE;
    var g := GraphOf(t);
    assert g[0] == [Edge([1], 1), Edge([1, 2], 2)];
    LiveIsCoAccessible(t, 0);
    LiveIsCoAccessible(t, 1);
    NoSteps(g, 1, []);
    ExitsStep(g, 0, g[0][0], 0, []);
    assert [1] + [] == [1];
    assert Exits(g, 0, 1, [1]);
    forall k, v | Exits(g, 0, k, v) ensures [1] <= v {
      if k == 0 {
        NoSteps(g, 0, v);
      } else {
        var e, rest := FirstExitEdge(g, 0, k, v);
      }
    }
  }
}
