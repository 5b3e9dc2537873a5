/** Partition refinement on a deterministic labelled graph. */
module Partition {
  import opened Words
  import opened LabelAutomata

  /** How a word may end at a state; a final output distinguishes final states. */
  datatype Ending = NotFinal | Final | FinalWith(out: Word)

  /** `edges[i]` maps each label readable at i to the state it leads to. */
  datatype Graph = Graph(edges: seq<map<Label, nat>>, ends: seq<Ending>) {
    predicate Valid() {
      && |edges| == |ends|
      && forall i, l :: 0 <= i < |edges| && l in edges[i] ==> edges[i][l] < |edges|
    }
  }

  // ---------- what can be observed of a state ----------

  /** The ending met by reading w from i, if w can be read. */
  function Observe(g: Graph, i: nat, w: seq<Label>): Option<Ending>
    requires g.Valid() && i < |g.edges|
    decreases w
  {
    if w == [] then Some(g.ends[i])
    else if w[0] in g.edges[i] then Observe(g, g.edges[i][w[0]], w[1..])
    else None
  }

  /** No label word separates i from j. */
  ghost predicate Equivalent(g: Graph, i: nat, j: nat)
    requires g.Valid() && i < |g.edges| && j < |g.edges|
  {
    forall w {:trigger Observe(g, i, w)} {:trigger Observe(g, j, w)} :: Observe(g, i, w) == Observe(g, j, w)
  }

  lemma ObserveStep(g: Graph, i: nat, l: Label, w: seq<Label>)
    requires g.Valid() && i < |g.edges|
    ensures Observe(g, i, [l] + w) == if l in g.edges[i] then Observe(g, g.edges[i][l], w) else None
  {
    assert ([l] + w)[1..] == w;
  }

  lemma ObserveNow(g: Graph, i: nat)
    requires g.Valid() && i < |g.edges|
    ensures Observe(g, i, []) == Some(g.ends[i])
  {
  }

  /** Equivalent states read the same labels and go to equivalent states. */
  lemma EquivalentStep(g: Graph, i: nat, j: nat, l: Label)
    requires g.Valid() && i < |g.edges| && j < |g.edges| && Equivalent(g, i, j)
    ensures l in g.edges[i] <==> l in g.edges[j]
    ensures l in g.edges[i] ==> Equivalent(g, g.edges[i][l], g.edges[j][l])
  {
    hide Observe;
    ObserveStep(g, i, l, []);
    ObserveStep(g, j, l, []);
    if l in g.edges[i] {
      ObserveNow(g, g.edges[i][l]);
    }
    if l in g.edges[j] {
      ObserveNow(g, g.edges[j][l]);
    }
    assert Observe(g, i, [l] + []) == Observe(g, j, [l] + []);
    if l in g.edges[i] {
      forall w ensures Observe(g, g.edges[i][l], w) == Observe(g, g.edges[j][l], w) {
        ObserveStep(g, i, l, w);
        ObserveStep(g, j, l, w);
        assert Observe(g, i, [l] + w) == Observe(g, j, [l] + w);
      }
    }
  }

  // ---------- partitions as block numbers ----------

  type Signature = (nat, map<Label, nat>)

  function SignatureOf(g: Graph, block: seq<nat>, i: nat): Signature
    requires g.Valid() && |block| == |g.edges| && i < |block|
  {
    (block[i], map l | l in g.edges[i] :: block[g.edges[i][l]])
  }

  /** One number, the same labels, and for each label successors of one number. */
  ghost predicate Alike(g: Graph, block: seq<nat>, i: nat, j: nat)
    requires g.Valid() && |block| == |g.edges| && i < |block| && j < |block|
  {
    && block[i] == block[j]
    && (forall l {:trigger l in g.edges[i]} {:trigger l in g.edges[j]} :: l in g.edges[i] <==> l in g.edges[j])
    && (forall l {:trigger g.edges[i][l]} {:trigger g.edges[j][l]} :: l in g.edges[i] && l in g.edges[j] ==> block[g.edges[i][l]] == block[g.edges[j][l]])
  }

  lemma SignatureAlike(g: Graph, block: seq<nat>, i: nat, j: nat)
    requires g.Valid() && |block| == |g.edges| && i < |block| && j < |block|
    ensures SignatureOf(g, block, i) == SignatureOf(g, block, j) <==> Alike(g, block, i, j)
  {
    var s, s' := SignatureOf(g, block, i), SignatureOf(g, block, j);
    if s == s' {
      forall l ensures l in g.edges[i] <==> l in g.edges[j] {
        assert l in s.1 <==> l in s'.1;
      }
      forall l | l in g.edges[i] && l in g.edges[j] ensures block[g.edges[i][l]] == block[g.edges[j][l]] {
        assert s.1[l] == s'.1[l];
      }
    }
    if Alike(g, block, i, j) {
      assert s.1 == s'.1;
    }
  }

  /** States with one number have one ending. */
  predicate KeepsEndings(g: Graph, block: seq<nat>)
    requires g.Valid() && |block| == |g.edges|
  {
    forall i, j :: 0 <= i < |block| && 0 <= j < |block| && block[i] == block[j] ==> g.ends[i] == g.ends[j]
  }

  /** States that no label word separates have one number. */
  ghost predicate Coarse(g: Graph, block: seq<nat>)
    requires g.Valid() && |block| == |g.edges|
  {
    forall i: nat, j: nat {:trigger Equivalent(g, i, j)} :: i < |block| && j < |block| && Equivalent(g, i, j) ==> block[i] == block[j]
  }

  /** States with one number read the same labels and go to states with one number. */
  ghost predicate Stable(g: Graph, block: seq<nat>)
    requires g.Valid() && |block| == |g.edges|
  {
    forall i: nat, j: nat {:trigger block[i], block[j]} :: i < |block| && j < |block| && block[i] == block[j] ==> Alike(g, block, i, j)
  }

  predicate Refines(finer: seq<nat>, block: seq<nat>)
    requires |finer| == |block|
  {
    forall i: nat, j: nat {:trigger finer[i], finer[j]} :: i < |finer| && j < |finer| && finer[i] == finer[j] ==> block[i] == block[j]
  }

  function Range(block: seq<nat>): set<nat> {
    set i | 0 <= i < |block| :: block[i]
  }

  /** Exactly the numbers below n occur, and the first is 0. */
  ghost predicate Used(next: seq<nat>, n: nat) {
    && |Range(next)| == n
    && (forall k {:trigger k in Range(next)} :: k in Range(next) <==> 0 <= k < n)
    && (next != [] ==> next[0] == 0)
  }

  // ---------- one round ----------

  /** `signatureIds` after the first states: it numbers exactly their signatures; `order` lists them by number. */
  ghost predicate Ids<S>(order: seq<S>, signatures: seq<S>, next: seq<nat>, ids: map<S, nat>) {
    && |next| == |signatures| && |ids| == |order|
    && (forall i: nat {:trigger next[i]} {:trigger signatures[i]} :: i < |next| ==> signatures[i] in ids && ids[signatures[i]] == next[i])
    && (forall s {:trigger s in ids} :: s in ids ==> ids[s] < |order| && order[ids[s]] == s)
    && Used(next, |order|)
  }

  lemma UsedMore(next: seq<nat>, n: nat)
    requires Used(next, n)
    ensures Used(next + [n], n + 1)
    ensures forall k: nat :: k < n ==> Used(next + [k], n)
  {
    RangeMore(next, n);
    assert next == [] ==> Range(next) == {};
    forall k: nat | k < n ensures Used(next + [k], n) {
      RangeMore(next, k);
      assert Range(next) + {k} == Range(next);
    }
  }

  lemma RangeMore(next: seq<nat>, id: nat)
    ensures Range(next + [id]) == Range(next) + {id}
  {
    var next' := next + [id];
    assert next'[|next|] == id;
    assert forall i :: 0 <= i < |next| ==> next'[i] == next[i];
  }

  lemma NewId<S>(order: seq<S>, signatures: seq<S>, next: seq<nat>, ids: map<S, nat>, s: S)
    requires Ids(order, signatures, next, ids) && s !in ids
    ensures Ids(order + [s], signatures + [s], next + [|ids|], ids[s := |ids|])
  {
    UsedMore(next, |ids|);
    hide Used;
  }

  lemma OldId<S>(order: seq<S>, signatures: seq<S>, next: seq<nat>, ids: map<S, nat>, s: S)
    requires Ids(order, signatures, next, ids) && s in ids
    ensures Ids(order, signatures + [s], next + [ids[s]], ids)
  {
    UsedMore(next, |ids|);
    hide Used;
  }

  lemma IdsNumber<S>(order: seq<S>, signatures: seq<S>, next: seq<nat>, ids: map<S, nat>)
    requires Ids(order, signatures, next, ids)
    ensures Used(next, |ids|)
    ensures forall i: nat, j: nat {:trigger next[i], next[j]} :: i < |next| && j < |next| ==> (next[i] == next[j] <==> signatures[i] == signatures[j])
  {
    hide Range;
    forall i: nat, j: nat | i < |next| && j < |next| ensures next[i] == next[j] <==> signatures[i] == signatures[j] {
      var z, z' := ids[signatures[i]], ids[signatures[j]];
      assert next[i] == z && next[j] == z';
    }
  }

  /** Numbers the signatures in the order in which they are met. */
  method Round(g: Graph, block: seq<nat>) returns (next: seq<nat>, count: nat)
    requires g.Valid() && |block| == |g.edges|
    ensures |next| == |block| && Used(next, count) && RoundOf(g, block, next)
  {
    hide SignatureOf, Ids, Alike, Range;
    var ids: map<Signature, nat> := map[];
    next := [];
    ghost var order: seq<Signature>, signatures: seq<Signature> := [], [];
    NoIds();
    while |next| < |block|
      invariant |next| <= |block| && |signatures| == |next|
      invariant forall i: nat {:trigger signatures[i]} :: i < |signatures| ==> signatures[i] == SignatureOf(g, block, i)
      invariant Ids(order, signatures, next, ids)
    {
      var s := SignatureOf(g, block, |next|);
      if s !in ids {
        NewId(order, signatures, next, ids, s);
        order := order + [s];
        var id := |ids|;
        ids := ids[s := id];
        next := next + [id];
      } else {
        OldId(order, signatures, next, ids, s);
        next := next + [ids[s]];
      }
      signatures := signatures + [s];
    }
    count := |ids|;
    IdsNumber(order, signatures, next, ids);
    forall i: nat, j: nat | i < |next| && j < |next| ensures next[i] == next[j] <==> Alike(g, block, i, j) {
      SignatureAlike(g, block, i, j);
      assert signatures[i] == SignatureOf(g, block, i) && signatures[j] == SignatureOf(g, block, j);
    }
  }

  lemma NoIds()
    ensures Ids<Signature>([], [], [], map[])
  {
    assert Range([]) == {};
  }

  function Image(s: set<nat>, f: map<nat, nat>): set<nat>
    requires s <= f.Keys
  {
    set v | v in s :: f[v]
  }

  /** A map takes a set to a set that is no larger. */
  lemma {:induction false} ImageAtMost(s: set<nat>, f: map<nat, nat>)
    requires s <= f.Keys
    ensures |Image(s, f)| <= |s|
    decreases s
  {
    if s != {} {
      var x :| x in s;
      ImageAtMost(s - {x}, f);
      assert Image(s, f) == Image(s - {x}, f) + {f[x]};
    }
  }

  /** Where two elements have one image, one of them can be left out. */
  lemma ImageWithout(s: set<nat>, f: map<nat, nat>, x: nat, y: nat)
    requires s <= f.Keys && x in s && y in s && x != y && f[x] == f[y]
    ensures |Image(s, f)| < |s|
  {
    ImageAtMost(s - {y}, f);
    forall b | b in Image(s, f) ensures b in Image(s - {y}, f) {
      var v :| v in s && f[v] == b;
      assert (if v == y then x else v) in s - {y};
    }
    assert Image(s, f) == Image(s - {y}, f);
  }

  /** Refining cannot lose blocks; if it does not gain any, the partition is the same. */
  lemma RefinedCount(finer: seq<nat>, block: seq<nat>)
    requires |finer| == |block| && Refines(finer, block)
    ensures |Range(block)| <= |Range(finer)|
    ensures |Range(block)| == |Range(finer)| ==> Refines(block, finer)
  {
    var f := BlockMap(finer, block);
    ImageOfRange(finer, block, f);
    ImageAtMost(Range(finer), f);
    if i: nat, j: nat :| i < |block| && j < |block| && block[i] == block[j] && finer[i] != finer[j] {
      ImageWithout(Range(finer), f, finer[i], finer[j]);
    }
  }

  /** The coarser number that belongs to each finer one. */
  lemma {:induction false} BlockMap(finer: seq<nat>, block: seq<nat>) returns (f: map<nat, nat>)
    requires |finer| == |block| && Refines(finer, block)
    ensures f.Keys == Range(finer) && forall i :: 0 <= i < |finer| ==> f[finer[i]] == block[i]
    decreases |finer|
  {
    if finer == [] {
      f := map[];
    } else {
      var k := |finer| - 1;
      var f0 := BlockMap(finer[..k], block[..k]);
      f := f0[finer[k] := block[k]];
      assert f.Keys == Range(finer) by {
        assert forall i :: 0 <= i < k ==> finer[..k][i] == finer[i];
      }
      forall i | 0 <= i < |finer| ensures f[finer[i]] == block[i] {
        if i < k && finer[i] != finer[k] {
          assert finer[..k][i] == finer[i] && block[..k][i] == block[i];
        }
      }
    }
  }

  lemma ImageOfRange(finer: seq<nat>, block: seq<nat>, f: map<nat, nat>)
    requires |finer| == |block| && f.Keys == Range(finer) && forall i :: 0 <= i < |finer| ==> f[finer[i]] == block[i]
    ensures Image(Range(finer), f) == Range(block)
  {
    var image := Image(Range(finer), f);
    forall b | b in Range(block) ensures b in image {
      var i :| 0 <= i < |block| && block[i] == b;
      assert finer[i] in Range(finer) && f[finer[i]] == b;
    }
    forall b | b in image ensures b in Range(block) {
      var v :| v in Range(finer) && f[v] == b;
      var i :| 0 <= i < |finer| && finer[i] == v;
      assert block[i] == b;
    }
  }

  ghost predicate RoundOf(g: Graph, block: seq<nat>, next: seq<nat>)
    requires g.Valid() && |block| == |g.edges| == |next|
  {
    forall i: nat, j: nat {:trigger next[i], next[j]} :: i < |next| && j < |next| ==> (next[i] == next[j] <==> Alike(g, block, i, j))
  }

  lemma RoundRefines(g: Graph, block: seq<nat>, next: seq<nat>)
    requires g.Valid() && |block| == |g.edges| == |next| && RoundOf(g, block, next)
    ensures Refines(next, block)
    ensures KeepsEndings(g, block) ==> KeepsEndings(g, next)
  {
  }

  /** A round never separates equivalent states. */
  lemma RoundCoarse(g: Graph, block: seq<nat>, next: seq<nat>)
    requires g.Valid() && |block| == |g.edges| == |next| && RoundOf(g, block, next) && Coarse(g, block)
    ensures Coarse(g, next)
  {
    hide Equivalent;
    forall i: nat, j: nat | i < |block| && j < |block| && Equivalent(g, i, j) ensures next[i] == next[j] {
      forall l: Label ensures l in g.edges[i] <==> l in g.edges[j] {
        EquivalentStep(g, i, j, l);
      }
      forall l | l in g.edges[i] ensures block[g.edges[i][l]] == block[g.edges[j][l]] {
        EquivalentStep(g, i, j, l);
      }
      assert Alike(g, block, i, j);
    }
  }

  /** When a round gains no block, its partition is stable. */
  lemma NoGainIsStable(g: Graph, block: seq<nat>, next: seq<nat>)
    requires g.Valid() && |block| == |g.edges| == |next| && RoundOf(g, block, next)
    requires |Range(next)| == |Range(block)|
    ensures Stable(g, next)
  {
    hide Range;
    RoundRefines(g, block, next);
    RefinedCount(next, block);
    forall i: nat, j: nat | i < |next| && j < |next| && next[i] == next[j] ensures Alike(g, next, i, j) {
      assert Alike(g, block, i, j);
    }
  }

  // ---------- the whole refinement ----------

  method Refine(g: Graph, seed: seq<nat>) returns (block: seq<nat>, blockCount: nat)
    requires g.Valid() && |seed| == |g.edges| && KeepsEndings(g, seed) && Coarse(g, seed)
    ensures |block| == |seed| && Used(block, blockCount)
    ensures KeepsEndings(g, block) && Coarse(g, block) && Stable(g, block) && Refines(block, seed)
  {
    hide Alike, RoundOf, Range, KeepsEndings, Coarse, Stable;
    block, blockCount := seed, 0;
    var going := true;
    while going
      invariant |block| == |seed| && KeepsEndings(g, block) && Coarse(g, block) && Refines(block, seed)
      invariant blockCount == 0 || Used(block, blockCount)
      invariant blockCount <= |block|
      invariant !going ==> Stable(g, block) && Used(block, blockCount)
      decreases |block| - blockCount, going
    {
      var next, newCount := Round(g, block);
      RoundRefines(g, block, next);
      RoundCoarse(g, block, next);
      RefinedCount(next, block);
      RangeAtMost(next);
      if newCount == blockCount {
        if blockCount == 0 {
          NothingLeft(next);
          assert Stable(g, next) by { StableNothing(g, next); }
        } else {
          NoGainIsStable(g, block, next);
        }
        going := false;
      }
      block, blockCount := next, newCount;
    }
  }

  lemma {:induction false} RangeAtMost(block: seq<nat>)
    ensures |Range(block)| <= |block|
    decreases |block|
  {
    if block != [] {
      var front := block[..|block| - 1];
      RangeAtMost(front);
      assert Range(block) == Range(front) + {block[|block| - 1]};
    }
  }

  lemma NothingLeft(next: seq<nat>)
    requires Used(next, 0)
    ensures next == []
  {
    assert Range(next) == {};
    assert forall i :: 0 <= i < |next| ==> next[i] in Range(next);
  }

  lemma StableNothing(g: Graph, block: seq<nat>)
    requires g.Valid() && |block| == |g.edges| == 0
    ensures Stable(g, block)
  {
  }

  lemma {:induction false} StableMeansEquivalent(g: Graph, block: seq<nat>, i: nat, j: nat, w: seq<Label>)
    requires g.Valid() && |block| == |g.edges| && Stable(g, block) && KeepsEndings(g, block)
    requires i < |block| && j < |block| && block[i] == block[j]
    ensures Observe(g, i, w) == Observe(g, j, w)
    decreases w
  {
    if w != [] {
      assert Alike(g, block, i, j);
      if w[0] in g.edges[i] {
        StableMeansEquivalent(g, block, g.edges[i][w[0]], g.edges[j][w[0]], w[1..]);
      }
    }
  }

  /** The refinement ends in the coarsest bisimulation: two states share a block exactly when no label word separates them. */
  lemma SameBlockIff(g: Graph, block: seq<nat>, i: nat, j: nat)
    requires g.Valid() && |block| == |g.edges| && KeepsEndings(g, block) && Coarse(g, block) && Stable(g, block)
    requires i < |block| && j < |block|
    ensures block[i] == block[j] <==> Equivalent(g, i, j)
  {
    hide KeepsEndings, Stable, Observe;
    if block[i] == block[j] {
      forall w ensures Observe(g, i, w) == Observe(g, j, w) {
        StableMeansEquivalent(g, block, i, j, w);
      }
    }
  }
}
