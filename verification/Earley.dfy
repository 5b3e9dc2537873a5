/** The Earley recogniser. */
module Earley {
  import opened Words
  import opened Grammar

  /** A dotted rule with the position it was predicted at. Rules are told apart by their index. */
  datatype Item = Item(rule: nat, dot: nat, origin: nat)

  type Table = seq<set<Item>>

  predicate IsItem(g: CFG, it: Item, i: nat) {
    it.rule < |g.rules| && it.dot <= |g.rules[it.rule].rhs| && it.origin <= i
  }

  function Lhs(g: CFG, it: Item): Symbol
    requires it.rule < |g.rules|
  {
    g.rules[it.rule].lhs
  }

  /** The dot of the item stands before the symbol s. */
  predicate Before(g: CFG, it: Item, s: Symbol) {
    it.rule < |g.rules| && it.dot < |g.rules[it.rule].rhs| && g.rules[it.rule].rhs[it.dot] == s
  }

  predicate Complete(g: CFG, it: Item) {
    it.rule < |g.rules| && it.dot == |g.rules[it.rule].rhs|
  }

  function Advance(it: Item): Item {
    Item(it.rule, it.dot + 1, it.origin)
  }

  // ---------- what an item in R[i] says about the word ----------

  /** The start symbol derives w[..j] followed by s and something. */
  ghost predicate Expected(g: CFG, w: Word, j: nat, s: Symbol)
    requires j <= |w|
  {
    exists rest :: DerivesStar(g, [g.start], w[..j] + [s] + rest)
  }

  /** What is left of the dot derives w[origin..i], and the rule is expected at its origin. */
  ghost predicate Holds(g: CFG, w: Word, i: nat, it: Item)
    requires i <= |w|
  {
    && IsItem(g, it, i)
    && DerivesStar(g, g.rules[it.rule].rhs[..it.dot], w[it.origin..i])
    && Expected(g, w, it.origin, Lhs(g, it))
  }

  lemma ExpectedStart(g: CFG, w: Word)
    ensures Expected(g, w, 0, g.start)
  {
    assert Derives(g, [g.start], w[..0] + [g.start] + [], 0);
  }

  /** An expected rule is expected to show what follows its dot, where its left part ends. */
  lemma ExpectedNext(g: CFG, w: Word, i: nat, it: Item, s: Symbol)
    requires i <= |w| && Holds(g, w, i, it) && Before(g, it, s)
    ensures Expected(g, w, i, s)
  {
    hide Derives;
    var r := g.rules[it.rule];
    var j := it.origin;
    var rest :| DerivesStar(g, [g.start], w[..j] + [r.lhs] + rest);
    var n: nat :| Derives(g, [g.start], w[..j] + [r.lhs] + rest, n);
    var m: nat :| Derives(g, r.rhs[..it.dot], w[j..i], m);
    NoDerivation(g, r.rhs, r.rhs);
    RuleStep(g, r, r.rhs, 0);
    DerivesInContext(g, w[..j], [r.lhs], r.rhs, rest, 1);
    DerivesTransitive(g, [g.start], w[..j] + [r.lhs] + rest, w[..j] + r.rhs + rest, n, 1);
    var tail := r.rhs[it.dot..] + rest;
    DerivesInContext(g, w[..j], r.rhs[..it.dot], w[j..i], tail, m);
    assert w[..j] + r.rhs + rest == w[..j] + r.rhs[..it.dot] + tail;
    DerivesTransitive(g, [g.start], w[..j] + r.rhs + rest, w[..j] + w[j..i] + tail, n + 1, m);
    assert w[..j] + w[j..i] + tail == w[..i] + [s] + tail[1..];
  }

  lemma PredictHolds(g: CFG, w: Word, i: nat, it: Item, k: nat)
    requires i <= |w| && Holds(g, w, i, it) && k < |g.rules| && Before(g, it, g.rules[k].lhs)
    ensures Holds(g, w, i, Item(k, 0, i))
  {
    ExpectedNext(g, w, i, it, g.rules[k].lhs);
    EmptyHolds(g, w, k, i);
  }

  lemma EmptyHolds(g: CFG, w: Word, k: nat, i: nat)
    requires i <= |w| && k < |g.rules| && Expected(g, w, i, g.rules[k].lhs)
    ensures Holds(g, w, i, Item(k, 0, i))
  {
    assert g.rules[k].rhs[..0] == w[i..i];
    NoDerivation(g, w[i..i], w[i..i]);
  }

  /** Moving the dot over a symbol that derives the next stretch of the word. */
  lemma AdvanceHolds(g: CFG, w: Word, k: nat, i: nat, it: Item, s: Symbol)
    requires k <= i <= |w| && Holds(g, w, k, it) && Before(g, it, s) && DerivesStar(g, [s], w[k..i])
    ensures Holds(g, w, i, Advance(it))
  {
    hide Derives;
    var rhs := g.rules[it.rule].rhs;
    var n: nat :| Derives(g, rhs[..it.dot], w[it.origin..k], n);
    var m: nat :| Derives(g, [s], w[k..i], m);
    DerivesConcat(g, rhs[..it.dot], w[it.origin..k], n, [s], w[k..i], m);
    assert rhs[..it.dot] + [s] == rhs[..it.dot + 1];
    assert w[it.origin..k] + w[k..i] == w[it.origin..i];
  }

  lemma CompleteHolds(g: CFG, w: Word, k: nat, i: nat, it: Item, done: Item)
    requires k <= i <= |w| && Holds(g, w, k, it) && Holds(g, w, i, done) && Complete(g, done) && done.origin == k
    requires Before(g, it, Lhs(g, done))
    ensures Holds(g, w, i, Advance(it))
  {
    hide Derives, Expected;
    var r := g.rules[done.rule];
    assert r.rhs[..done.dot] == r.rhs;
    var n: nat :| Derives(g, r.rhs, w[k..i], n);
    RuleStep(g, r, w[k..i], n);
    AdvanceHolds(g, w, k, i, it, r.lhs);
  }

  lemma ScanHolds(g: CFG, w: Word, i: nat, it: Item)
    requires i < |w| && Holds(g, w, i, it) && Before(g, it, w[i])
    ensures Holds(g, w, i + 1, Advance(it))
  {
    assert w[i..i + 1] == [w[i]];
    NoDerivation(g, [w[i]], [w[i]]);
    AdvanceHolds(g, w, i, i + 1, it, w[i]);
  }

  // ---------- the closure C ----------

  ghost predicate AllHold(g: CFG, w: Word, i: nat, items: set<Item>)
    requires i <= |w|
  {
    forall it :: it in items ==> Holds(g, w, i, it)
  }

  predicate Predicts(g: CFG, it: Item, k: nat) {
    k < |g.rules| && Before(g, it, g.rules[k].lhs)
  }

  /** `done` is complete and yields what `it` waits for. */
  predicate Completes(g: CFG, done: Item, it: Item) {
    Complete(g, done) && Before(g, it, Lhs(g, done))
  }

  ghost predicate PredictedInto(g: CFG, it: Item, i: nat, into: set<Item>) {
    forall k {:trigger Predicts(g, it, k)} :: Predicts(g, it, k) ==> Item(k, 0, i) in into
  }

  /** Completion of items that began at i itself, by the items under construction. */
  ghost predicate InnerInto(g: CFG, it: Item, items: set<Item>, i: nat, into: set<Item>) {
    forall done {:trigger Completes(g, done, it)} :: done in items && done.origin == i && Completes(g, done, it) ==> Advance(it) in into
  }

  /** Completion by `done` of the items that wait for it where it began. */
  ghost predicate OuterInto(g: CFG, done: Item, R: Table, into: set<Item>) {
    forall it {:trigger Completes(g, done, it)} :: done.origin < |R| && it in R[done.origin] && Completes(g, done, it) ==> Advance(it) in into
  }

  predicate AwaitsNonTerminal(g: CFG, it: Item) {
    it.rule < |g.rules| && it.dot < |g.rules[it.rule].rhs| && g.rules[it.rule].rhs[it.dot] in g.nonTerminals
  }

  method PredictFrom(g: CFG, ghost w: Word, it: Item, i: nat, acc0: set<Item>) returns (acc: set<Item>)
    requires i <= |w| && Holds(g, w, i, it) && AllHold(g, w, i, acc0) && AwaitsNonTerminal(g, it)
    ensures acc0 <= acc && AllHold(g, w, i, acc) && PredictedInto(g, it, i, acc)
  {
    hide Holds;
    acc := acc0;
    for k := 0 to |g.rules|
      invariant acc0 <= acc && AllHold(g, w, i, acc)
      invariant forall l {:trigger Predicts(g, it, l)} :: 0 <= l < k && Predicts(g, it, l) ==> Item(l, 0, i) in acc
    {
      if g.rules[k].lhs == g.rules[it.rule].rhs[it.dot] {
        PredictHolds(g, w, i, it, k);
        acc := acc + {Item(k, 0, i)};
      }
    }
  }

  method CompleteInside(g: CFG, ghost w: Word, it: Item, items: set<Item>, i: nat, acc0: set<Item>) returns (acc: set<Item>)
    requires i <= |w| && it in items && AllHold(g, w, i, items) && AllHold(g, w, i, acc0) && AwaitsNonTerminal(g, it)
    ensures acc0 <= acc && AllHold(g, w, i, acc) && InnerInto(g, it, items, i, acc)
  {
    hide Holds;
    acc := acc0;
    var todo := items;
    while todo != {}
      invariant acc0 <= acc && todo <= items && AllHold(g, w, i, acc)
      invariant InnerInto(g, it, items - todo, i, acc)
    {
      var done :| done in todo;
      if Completes(g, done, it) && done.origin == i {
        CompleteHolds(g, w, i, i, it, done);
        acc := acc + {Advance(it)};
      }
      todo := todo - {done};
    }
    assert items - todo == items;
  }

  /** First half of a round: predictions, and completions within the set. */
  method PredictAndComplete(g: CFG, ghost w: Word, items: set<Item>, i: nat) returns (acc: set<Item>)
    requires g.Valid() && i <= |w| && AllHold(g, w, i, items)
    ensures AllHold(g, w, i, acc)
    ensures forall it {:trigger PredictedInto(g, it, i, acc)} :: it in items ==> PredictedInto(g, it, i, acc)
    ensures forall it {:trigger InnerInto(g, it, items, i, acc)} :: it in items ==> InnerInto(g, it, items, i, acc)
  {
    hide Holds, PredictedInto, InnerInto;
    acc := {};
    var todo := items;
    while todo != {}
      invariant todo <= items && AllHold(g, w, i, acc)
      invariant forall it {:trigger PredictedInto(g, it, i, acc)} :: it in items - todo ==> PredictedInto(g, it, i, acc)
      invariant forall it {:trigger InnerInto(g, it, items, i, acc)} :: it in items - todo ==> InnerInto(g, it, items, i, acc)
    {
      var it :| it in todo;
      ghost var before := acc;
      if AwaitsNonTerminal(g, it) {
        acc := PredictFrom(g, w, it, i, acc);
        ghost var predicted := acc;
        acc := CompleteInside(g, w, it, items, i, acc);
        IntoMore(g, {it}, items, i, predicted, acc);
      } else {
        NothingToDo(g, it, items, i, acc);
      }
      IntoMore(g, items - todo, items, i, before, acc);
      todo := todo - {it};
    }
  }

  lemma NothingToDo(g: CFG, it: Item, items: set<Item>, i: nat, acc: set<Item>)
    requires g.Valid() && !AwaitsNonTerminal(g, it)
    ensures PredictedInto(g, it, i, acc) && InnerInto(g, it, items, i, acc)
  {
  }

  lemma IntoMore(g: CFG, its: set<Item>, items: set<Item>, i: nat, a: set<Item>, b: set<Item>)
    requires a <= b
    ensures forall it {:trigger PredictedInto(g, it, i, b)} :: it in its && PredictedInto(g, it, i, a) ==> PredictedInto(g, it, i, b)
    ensures forall it {:trigger InnerInto(g, it, items, i, b)} :: it in its && InnerInto(g, it, items, i, a) ==> InnerInto(g, it, items, i, b)
  {
  }

  /** The completed sets R[0..i] hold, the later ones are still empty. */
  ghost predicate TableHolds(g: CFG, w: Word, R: Table, i: nat)
    requires i <= |w|
  {
    forall k {:trigger R[k]} :: 0 <= k < |R| && k <= i ==> AllHold(g, w, k, R[k])
  }

  /** Second half of a round: completions by looking back into the earlier sets. */
  method CompleteOutside(g: CFG, ghost w: Word, R: Table, items: set<Item>, i: nat) returns (acc: set<Item>)
    requires i <= |w| && i < |R| && TableHolds(g, w, R, i) && AllHold(g, w, i, items)
    ensures AllHold(g, w, i, acc)
    ensures forall done {:trigger OuterInto(g, done, R, acc)} :: done in items ==> OuterInto(g, done, R, acc)
  {
    hide Holds, OuterInto, TableHolds;
    acc := {};
    var todo := items;
    while todo != {}
      invariant todo <= items && AllHold(g, w, i, acc)
      invariant forall done {:trigger OuterInto(g, done, R, acc)} :: done in items - todo ==> OuterInto(g, done, R, acc)
    {
      var done :| done in todo;
      ghost var before := acc;
      HoldsIsItem(g, w, i, done);
      if Complete(g, done) {
        TableAt(g, w, R, i, done.origin);
        acc := AdvanceWaiting(g, w, R[done.origin], done, i, R, acc);
      } else {
        IncompleteDoesNothing(g, done, R, acc);
      }
      OuterMore(g, items - todo, R, before, acc);
      todo := todo - {done};
    }
  }

  lemma HoldsIsItem(g: CFG, w: Word, i: nat, it: Item)
    requires i <= |w| && Holds(g, w, i, it)
    ensures IsItem(g, it, i)
  {
  }

  lemma TableAt(g: CFG, w: Word, R: Table, i: nat, k: nat)
    requires i <= |w| && k <= i < |R| && TableHolds(g, w, R, i)
    ensures AllHold(g, w, k, R[k])
  {
  }

  lemma IncompleteDoesNothing(g: CFG, done: Item, R: Table, acc: set<Item>)
    requires !Complete(g, done)
    ensures OuterInto(g, done, R, acc)
  {
  }

  lemma OuterMore(g: CFG, its: set<Item>, R: Table, a: set<Item>, b: set<Item>)
    requires a <= b
    ensures forall done {:trigger OuterInto(g, done, R, b)} :: done in its && OuterInto(g, done, R, a) ==> OuterInto(g, done, R, b)
  {
  }

  method AdvanceWaiting(g: CFG, ghost w: Word, waiting: set<Item>, done: Item, i: nat, ghost R: Table, acc0: set<Item>) returns (acc: set<Item>)
    requires done.origin <= i <= |w| && Holds(g, w, i, done) && Complete(g, done) && AllHold(g, w, i, acc0)
    requires done.origin < |R| && waiting == R[done.origin] && AllHold(g, w, done.origin, waiting)
    ensures acc0 <= acc && AllHold(g, w, i, acc) && OuterInto(g, done, R, acc)
  {
    hide Holds;
    acc := acc0;
    var todo := waiting;
    while todo != {}
      invariant acc0 <= acc && todo <= waiting && AllHold(g, w, i, acc)
      invariant forall it {:trigger Completes(g, done, it)} :: it in waiting - todo && Completes(g, done, it) ==> Advance(it) in acc
    {
      var it :| it in todo;
      if Before(g, it, Lhs(g, done)) {
        CompleteHolds(g, w, done.origin, i, it, done);
        acc := acc + {Advance(it)};
      }
      todo := todo - {it};
    }
  }

  // ---------- the fixpoint ----------

  /** Nothing more can be predicted or completed. */
  ghost predicate Closed(g: CFG, R: Table, items: set<Item>, i: nat) {
    && (forall it {:trigger PredictedInto(g, it, i, items)} :: it in items ==> PredictedInto(g, it, i, items))
    && (forall it {:trigger InnerInto(g, it, items, i, items)} :: it in items ==> InnerInto(g, it, items, i, items))
    && (forall done {:trigger OuterInto(g, done, R, items)} :: done in items ==> OuterInto(g, done, R, items))
  }

  ghost function AllItems(g: CFG, i: nat): set<Item> {
    set r: nat, d: nat, o: nat | r < |g.rules| && d <= |g.rules[r].rhs| && o <= i :: Item(r, d, o)
  }

  lemma GrowsTowardsAllItems(g: CFG, w: Word, i: nat, a: set<Item>, b: set<Item>)
    requires i <= |w| && a <= b && AllHold(g, w, i, b) && a != b
    ensures AllItems(g, i) - b < AllItems(g, i) - a
  {
    hide DerivesStar, Expected;
    var it :| it in b && it !in a;
    HoldsIsItem(g, w, i, it);
    assert it in AllItems(g, i) - a;
  }

  method Closure(g: CFG, ghost w: Word, R: Table, kernel: set<Item>, i: nat) returns (items: set<Item>)
    requires g.Valid() && i <= |w| && i < |R| && TableHolds(g, w, R, i) && AllHold(g, w, i, kernel)
    ensures kernel <= items && AllHold(g, w, i, items) && Closed(g, R, items, i)
  {
    hide AllHold, PredictedInto, InnerInto, OuterInto, AllItems, TableHolds;
    items := kernel;
    var added := true;
    while added
      invariant kernel <= items && AllHold(g, w, i, items)
      invariant !added ==> Closed(g, R, items, i)
      decreases AllItems(g, i) - items, if added then 1 else 0
    {
      added := false;
      ghost var start := items;
      var more := PredictAndComplete(g, w, items, i);
      var prevSize := |items|;
      UnionHolds(g, w, i, items, more);
      items := items + more;
      if |items| > prevSize {
        added := true;
      }
      SameSize(start, items);
      ghost var middle := items;
      var back := CompleteOutside(g, w, R, items, i);
      prevSize := |items|;
      UnionHolds(g, w, i, items, back);
      items := items + back;
      if |items| > prevSize {
        added := true;
      }
      SameSize(middle, items);
      if items != start {
        GrowsTowardsAllItems(g, w, i, start, items);
      } else {
        assert start + more == start && start + back == start;
        IntoMore(g, items, items, i, more, items);
        OuterMore(g, items, R, back, items);
      }
    }
  }

  lemma UnionHolds(g: CFG, w: Word, i: nat, a: set<Item>, b: set<Item>)
    requires i <= |w| && AllHold(g, w, i, a) && AllHold(g, w, i, b)
    ensures AllHold(g, w, i, a + b)
  {
  }

  lemma SameSize(a: set<Item>, b: set<Item>)
    requires a <= b
    ensures |a| <= |b| && (|b| > |a| <==> b != a)
  {
    assert |b| == |a| + |b - a|;
    if b != a {
      assert b - a != {};
    }
  }

  // ---------- recognize ----------

  ghost predicate Scans(g: CFG, w: Word, R: Table, k: nat)
    requires k < |w| && k + 1 < |R|
  {
    forall it {:trigger Before(g, it, w[k])} :: it in R[k] && Before(g, it, w[k]) ==> Advance(it) in R[k + 1]
  }

  ghost predicate Starts(g: CFG, items: set<Item>) {
    forall k {:trigger Item(k, 0, 0)} :: 0 <= k < |g.rules| && g.rules[k].lhs == g.start ==> Item(k, 0, 0) in items
  }

  /** R[0..n] is finished: sound, started, scanned and closed. */
  ghost predicate Filled(g: CFG, w: Word, R: Table, n: nat) {
    && n <= |w| && |R| == |w| + 1 && TableHolds(g, w, R, n) && Starts(g, R[0])
    && (forall k {:trigger Scans(g, w, R, k)} :: 0 <= k < n ==> Scans(g, w, R, k))
    && (forall k {:trigger Closed(g, R[..k], R[k], k)} :: 0 <= k <= n ==> Closed(g, R[..k], R[k], k))
  }

  lemma ClosedBelow(g: CFG, R: Table, items: set<Item>, i: nat)
    requires i < |R| && Closed(g, R, items, i)
    ensures Closed(g, R[..i], items, i)
  {
    hide PredictedInto, InnerInto;
    forall done | done in items ensures OuterInto(g, done, R[..i], items) {
      assert OuterInto(g, done, R, items);
      forall it | done.origin < i && it in R[..i][done.origin] && Completes(g, done, it) ensures Advance(it) in items {
        assert it in R[done.origin];
      }
    }
  }

  lemma FillFirst(g: CFG, w: Word, R: Table, items: set<Item>)
    requires |R| == |w| + 1 && AllHold(g, w, 0, items) && Closed(g, R, items, 0) && Starts(g, items)
    ensures Filled(g, w, R[0 := items], 0)
  {
    hide Closed, AllHold;
    ClosedBelow(g, R, items, 0);
    assert R[0 := items][..0] == R[..0];
  }

  lemma FillNext(g: CFG, w: Word, R: Table, n: nat, kernel: set<Item>, items: set<Item>)
    requires Filled(g, w, R, n) && n < |w| && AllHold(g, w, n + 1, items) && Closed(g, R, items, n + 1) && kernel <= items
    requires forall it {:trigger Before(g, it, w[n])} :: it in R[n] && Before(g, it, w[n]) ==> Advance(it) in kernel
    ensures Filled(g, w, R[n + 1 := items], n + 1)
  {
    hide Closed, AllHold, Before;
    var R' := R[n + 1 := items];
    ClosedBelow(g, R, items, n + 1);
    forall k | 0 <= k <= n + 1 ensures Closed(g, R'[..k], R'[k], k) {
      assert R'[..k] == R[..k];
      if k <= n {
        assert Closed(g, R[..k], R[k], k);
      }
    }
    forall k | 0 <= k < n + 1 ensures Scans(g, w, R', k) {
      if k < n {
        assert Scans(g, w, R, k);
      }
    }
  }

  method StartItems(g: CFG, ghost w: Word) returns (items: set<Item>)
    ensures Starts(g, items) && AllHold(g, w, 0, items)
  {
    hide Holds, Expected;
    ExpectedStart(g, w);
    items := {};
    for k := 0 to |g.rules|
      invariant AllHold(g, w, 0, items)
      invariant forall l {:trigger Item(l, 0, 0)} :: 0 <= l < k && g.rules[l].lhs == g.start ==> Item(l, 0, 0) in items
    {
      if g.rules[k].lhs == g.start {
        EmptyHolds(g, w, k, 0);
        items := items + {Item(k, 0, 0)};
      }
    }
  }

  method Scan(g: CFG, w: Word, i: nat, items: set<Item>) returns (next: set<Item>)
    requires i < |w| && AllHold(g, w, i, items)
    ensures AllHold(g, w, i + 1, next)
    ensures forall it {:trigger Before(g, it, w[i])} :: it in items && Before(g, it, w[i]) ==> Advance(it) in next
  {
    hide Holds;
    next := {};
    var todo := items;
    while todo != {}
      invariant todo <= items && AllHold(g, w, i + 1, next)
      invariant forall it {:trigger Before(g, it, w[i])} :: it in items - todo && Before(g, it, w[i]) ==> Advance(it) in next
    {
      var it :| it in todo;
      if Before(g, it, w[i]) {
        ScanHolds(g, w, i, it);
        next := next + {Advance(it)};
      }
      todo := todo - {it};
    }
  }

  lemma EmptyTableHolds(g: CFG, w: Word, R: Table, n: nat)
    requires |R| == |w| + 1 && n <= |w|
    requires forall k :: n <= k < |R| ==> R[k] == {}
    requires n > 0 ==> TableHolds(g, w, R, n - 1)
    ensures TableHolds(g, w, R, n)
  {
  }

  method FillTable(g: CFG, w: Word) returns (R: Table)
    requires g.Valid()
    ensures Filled(g, w, R, |w|)
  {
    hide AllHold, Closed, TableHolds, Starts, Scans, Before;
    R := seq(|w| + 1, _ => {});
    var kernel := StartItems(g, w);
    EmptyTableHolds(g, w, R, 0);
    var items := Closure(g, w, R, kernel, 0);
    MoreStarts(g, kernel, items);
    FillFirst(g, w, R, items);
    R := R[0 := items];
    for i := 0 to |w|
      invariant Filled(g, w, R, i) && forall k :: i < k < |R| ==> R[k] == {}
    {
      TableAt(g, w, R, i, i);
      kernel := Scan(g, w, i, R[i]);
      EmptyTableHolds(g, w, R, i + 1);
      items := Closure(g, w, R, kernel, i + 1);
      FillNext(g, w, R, i, kernel, items);
      R := R[i + 1 := items];
    }
  }

  lemma MoreStarts(g: CFG, a: set<Item>, b: set<Item>)
    requires a <= b && Starts(g, a)
    ensures Starts(g, b)
  {
  }

  // ---------- completeness: everything that holds is in the table ----------

  lemma PredictedAt(g: CFG, w: Word, R: Table, it: Item, k: nat, r: nat)
    requires Filled(g, w, R, |w|) && k <= |w| && it in R[k] && Predicts(g, it, r)
    ensures Item(r, 0, k) in R[k]
  {
    assert Closed(g, R[..k], R[k], k) && PredictedInto(g, it, k, R[k]);
  }

  lemma CompletedAt(g: CFG, w: Word, R: Table, it: Item, k: nat, done: Item, m: nat)
    requires Filled(g, w, R, |w|) && k <= m <= |w| && it in R[k] && done in R[m] && done.origin == k && Completes(g, done, it)
    ensures Advance(it) in R[m]
  {
    hide Scans, Starts, TableHolds;
    assert Closed(g, R[..m], R[m], m);
    if k == m {
      assert InnerInto(g, it, R[m], m, R[m]);
    } else {
      assert OuterInto(g, done, R[..m], R[m]) && R[..m][k] == R[k];
    }
  }

  lemma ScannedAt(g: CFG, w: Word, R: Table, it: Item, k: nat)
    requires Filled(g, w, R, |w|) && k < |w| && it in R[k] && Before(g, it, w[k])
    ensures Advance(it) in R[k + 1]
  {
    assert Scans(g, w, R, k);
  }

  lemma RuleIndex(g: CFG, r: Rule) returns (k: nat)
    requires r in g.rules
    ensures k < |g.rules| && g.rules[k] == r
  {
    k :| 0 <= k < |g.rules| && g.rules[k] == r;
  }

  /** The dot moves over a symbol that derives the next stretch. */
  lemma AdvanceOver(g: CFG, w: Word, R: Table, it: Item, s: Symbol, k: nat, m: nat, n: nat)
    requires Filled(g, w, R, |w|) && k <= m <= |w| && it in R[k] && Before(g, it, s) && Derives(g, [s], w[k..m], n)
    ensures Advance(it) in R[m]
    decreases n, 0
  {
    hide Filled, Derives;
    if n == 0 {
      NoDerivation(g, [s], w[k..m]);
      assert m == k + 1 && w[k..m][0] == w[k];
      ScannedAt(g, w, R, it, k);
    } else {
      var rule := SymbolStep(g, s, w[k..m], n);
      var r := RuleIndex(g, rule);
      FilledLength(g, w, R);
      PredictedAt(g, w, R, it, k, r);
      var first := Item(r, 0, k);
      assert rule.rhs[0..|rule.rhs|] == rule.rhs;
      AdvanceAlong(g, w, R, first, |rule.rhs|, k, m, n - 1);
      CompletedAt(g, w, R, it, k, Item(r, |rule.rhs|, k), m);
    }
  }

  lemma FilledLength(g: CFG, w: Word, R: Table)
    requires Filled(g, w, R, |w|)
    ensures |R| == |w| + 1
  {
  }

  /** The dot moves over a stretch of the right side. */
  lemma AdvanceAlong(g: CFG, w: Word, R: Table, it: Item, d: nat, k: nat, m: nat, n: nat)
    requires Filled(g, w, R, |w|) && k <= m <= |w| && |R| == |w| + 1 && it in R[k]
    requires it.rule < |g.rules| && it.dot <= d <= |g.rules[it.rule].rhs| && Derives(g, g.rules[it.rule].rhs[it.dot..d], w[k..m], n)
    ensures Item(it.rule, d, it.origin) in R[m]
    decreases n, d - it.dot + 1
  {
    hide Filled, Derives;
    var rhs := g.rules[it.rule].rhs;
    if it.dot == d {
      assert rhs[d..d] == [];
      EmptyDerives(g, w[k..m], n);
      assert k == m;
    } else {
      var s := rhs[it.dot];
      assert rhs[it.dot..d] == [s] + rhs[it.dot + 1..d];
      var x, y, n1, n2 := Split(g, [s], rhs[it.dot + 1..d], w[k..m], n);
      var j := k + |x|;
      assert w[k..j] == w[k..m][..|x|] == x && w[j..m] == w[k..m][|x|..] == y;
      AdvanceOver(g, w, R, it, s, k, j, n1);
      AdvanceAlong(g, w, R, Advance(it), d, j, m, n2);
    }
  }

  /** A symbol expected inside what follows the dot is predicted where it is expected. */
  lemma PredictOver(g: CFG, w: Word, R: Table, it: Item, s: Symbol, k: nat, j: nat, r: nat, rest: Word, n: nat)
    requires g.Valid() && Filled(g, w, R, |w|) && k <= j <= |w| && |R| == |w| + 1 && it in R[k] && Before(g, it, s)
    requires r < |g.rules| && Derives(g, [s], w[k..j] + [g.rules[r].lhs] + rest, n)
    ensures Item(r, 0, j) in R[j]
    decreases n, 0
  {
    hide Filled, Derives;
    var goal := w[k..j] + [g.rules[r].lhs] + rest;
    if n == 0 {
      NoDerivation(g, [s], goal);
      assert |goal| == j - k + 1 + |rest|;
      assert k == j && goal[0] == g.rules[r].lhs;
      PredictedAt(g, w, R, it, k, r);
    } else {
      var rule := SymbolStep(g, s, goal, n);
      var q := RuleIndex(g, rule);
      PredictedAt(g, w, R, it, k, q);
      assert rule.rhs[0..] == rule.rhs;
      PredictAlong(g, w, R, Item(q, 0, k), k, j, r, rest, n - 1);
    }
  }

  lemma PredictAlong(g: CFG, w: Word, R: Table, it: Item, k: nat, j: nat, r: nat, rest: Word, n: nat)
    requires g.Valid() && Filled(g, w, R, |w|) && k <= j <= |w| && |R| == |w| + 1 && it in R[k]
    requires it.rule < |g.rules| && it.dot <= |g.rules[it.rule].rhs| && r < |g.rules|
    requires Derives(g, g.rules[it.rule].rhs[it.dot..], w[k..j] + [g.rules[r].lhs] + rest, n)
    ensures Item(r, 0, j) in R[j]
    decreases n, |g.rules[it.rule].rhs| - it.dot + 1
  {
    hide Filled, Derives;
    var rhs := g.rules[it.rule].rhs;
    var goal := w[k..j] + [g.rules[r].lhs] + rest;
    if it.dot == |rhs| {
      assert rhs[|rhs|..] == [];
      EmptyDerives(g, goal, n);
    } else {
      var s := rhs[it.dot];
      assert rhs[it.dot..] == [s] + rhs[it.dot + 1..];
      var x, y, n1, n2 := Split(g, [s], rhs[it.dot + 1..], goal, n);
      if |x| <= j - k {
        var m := k + |x|;
        assert x == goal[..|x|] == w[k..m] && y == goal[|x|..] == w[m..j] + [g.rules[r].lhs] + rest;
        AdvanceOver(g, w, R, it, s, k, m, n1);
        PredictAlong(g, w, R, Advance(it), m, j, r, rest, n2);
      } else {
        var rest' := x[j - k + 1..];
        assert x == goal[..|x|] == w[k..j] + [g.rules[r].lhs] + rest';
        PredictOver(g, w, R, it, s, k, j, r, rest', n1);
      }
    }
  }

  lemma StartAt(g: CFG, w: Word, R: Table, k: nat)
    requires Filled(g, w, R, |w|) && k < |g.rules| && g.rules[k].lhs == g.start
    ensures Item(k, 0, 0) in R[0]
  {
  }

  lemma ExpectedIsPredicted(g: CFG, w: Word, R: Table, j: nat, r: nat)
    requires g.Valid() && Filled(g, w, R, |w|) && |R| == |w| + 1 && j <= |w| && r < |g.rules| && Expected(g, w, j, g.rules[r].lhs)
    ensures Item(r, 0, j) in R[j]
  {
    hide Filled, Derives;
    var rest :| DerivesStar(g, [g.start], w[..j] + [g.rules[r].lhs] + rest);
    var goal := w[..j] + [g.rules[r].lhs] + rest;
    var n: nat :| Derives(g, [g.start], goal, n);
    if n == 0 {
      NoDerivation(g, [g.start], goal);
      assert |goal| == j + 1 + |rest|;
      assert j == 0 && goal[0] == g.rules[r].lhs;
      StartAt(g, w, R, r);
    } else {
      var rule := SymbolStep(g, g.start, goal, n);
      var q := RuleIndex(g, rule);
      StartAt(g, w, R, q);
      assert rule.rhs[0..] == rule.rhs && w[0..j] == w[..j];
      PredictAlong(g, w, R, Item(q, 0, 0), 0, j, r, rest, n - 1);
    }
  }

  /** The item theorem: R[i] holds exactly the items that describe the word. */
  lemma ItemTheorem(g: CFG, w: Word, R: Table, i: nat, it: Item)
    requires g.Valid() && Filled(g, w, R, |w|) && i <= |w|
    ensures |R| == |w| + 1 && (it in R[i] <==> Holds(g, w, i, it))
  {
    hide Filled, Derives, Expected;
    FilledLength(g, w, R);
    if it in R[i] {
      FilledHolds(g, w, R, i, it);
    }
    if Holds(g, w, i, it) {
      var rhs := g.rules[it.rule].rhs;
      var n: nat :| Derives(g, rhs[..it.dot], w[it.origin..i], n);
      ExpectedIsPredicted(g, w, R, it.origin, it.rule);
      assert rhs[0..it.dot] == rhs[..it.dot];
      AdvanceAlong(g, w, R, Item(it.rule, 0, it.origin), it.dot, it.origin, i, n);
    }
  }

  lemma FilledHolds(g: CFG, w: Word, R: Table, i: nat, it: Item)
    requires Filled(g, w, R, |w|) && i <= |w| && |R| == |w| + 1 && it in R[i]
    ensures Holds(g, w, i, it)
  {
    TableAt(g, w, R, |w|, i);
  }

  // ---------- acceptance ----------

  /** The start symbol derives v in at least one step. */
  ghost predicate InLanguage(g: CFG, v: Word) {
    exists r :: r in g.rules && r.lhs == g.start && DerivesStar(g, r.rhs, v)
  }

  /** What the acceptance test reports: a completed start rule in the last set, whatever its origin. */
  ghost predicate SomeSuffixInLanguage(g: CFG, w: Word) {
    exists j :: 0 <= j <= |w| && SuffixInLanguage(g, w, j)
  }

  ghost predicate SuffixInLanguage(g: CFG, w: Word, j: nat)
    requires j <= |w|
  {
    Expected(g, w, j, g.start) && InLanguage(g, w[j..])
  }

  /** Completed start rules that began at j stand for words of the language from j on. */
  lemma CompletedStart(g: CFG, w: Word, R: Table, it: Item)
    requires g.Valid() && Filled(g, w, R, |w|) && |R| == |w| + 1 && it in R[|w|] && Complete(g, it) && Lhs(g, it) == g.start
    ensures it.origin <= |w| && SuffixInLanguage(g, w, it.origin)
  {
    hide Filled, Derives;
    ItemTheorem(g, w, R, |w|, it);
    var r := g.rules[it.rule];
    assert r.rhs[..it.dot] == r.rhs && w[it.origin..|w|] == w[it.origin..];
    assert r in g.rules;
  }

  lemma StartIsCompleted(g: CFG, w: Word, R: Table, j: nat) returns (it: Item)
    requires g.Valid() && Filled(g, w, R, |w|) && |R| == |w| + 1 && j <= |w| && SuffixInLanguage(g, w, j)
    ensures it in R[|w|] && Complete(g, it) && Lhs(g, it) == g.start && it.origin == j
  {
    hide Filled, Derives;
    var r :| r in g.rules && r.lhs == g.start && DerivesStar(g, r.rhs, w[j..]);
    var k := RuleIndex(g, r);
    it := Item(k, |r.rhs|, j);
    assert r.rhs[..|r.rhs|] == r.rhs && w[j..|w|] == w[j..];
    ItemTheorem(g, w, R, |w|, it);
  }

  /** With `expectEof` the last symbol of the input is not read. */
  method Recognize(g: CFG, word: Word, expectEof: bool) returns (accepted: bool)
    requires g.Valid() && (expectEof ==> word != [])
    ensures accepted <==> SomeSuffixInLanguage(g, if expectEof then word[..|word| - 1] else word)
  {
    hide Filled, SuffixInLanguage;
    var w := if expectEof then word[..|word| - 1] else word;
    var R := FillTable(g, w);
    FilledLength(g, w, R);
    accepted := exists it :: it in R[|w|] && Complete(g, it) && Lhs(g, it) == g.start;
    if accepted {
      var it :| it in R[|w|] && Complete(g, it) && Lhs(g, it) == g.start;
      CompletedStart(g, w, R, it);
    }
    if j: nat :| j <= |w| && SuffixInLanguage(g, w, j) {
      var it := StartIsCompleted(g, w, R, j);
    }
  }

  /** No word of the language is rejected. */
  lemma LanguageIsAccepted(g: CFG, w: Word)
    requires InLanguage(g, w)
    ensures SomeSuffixInLanguage(g, w)
  {
    ExpectedStart(g, w);
    assert w[0..] == w && SuffixInLanguage(g, w, 0);
  }

  /** Whatever the start symbol can be expected after, it can also end: then no word outside the language is accepted. */
  ghost predicate PrefixesStay(g: CFG) {
    forall w, j {:trigger Expected(g, w, j, g.start)} ::
      0 < j <= |w| && Expected(g, w, j, g.start) ==> DerivesStar(g, [g.start], w[..j] + [g.start])
  }

  /** The start symbol is never expected after a letter, as in left-recursive rules. */
  ghost predicate StartComesFirst(g: CFG) {
    forall w, j {:trigger Expected(g, w, j, g.start)} :: 0 < j <= |w| ==> !Expected(g, w, j, g.start)
  }

  /** Where prefixes stay, exactly the words of the language are accepted. */
  lemma AcceptsLanguageIfPrefixesStay(g: CFG, w: Word)
    requires PrefixesStay(g)
    ensures SomeSuffixInLanguage(g, w) <==> InLanguage(g, w)
  {
    hide DerivesStar;
    if SomeSuffixInLanguage(g, w) {
      var j: nat :| j <= |w| && SuffixInLanguage(g, w, j);
      if j == 0 {
        assert w[0..] == w;
      } else {
        PrefixAndSuffix(g, w, j);
      }
    }
    if InLanguage(g, w) {
      LanguageIsAccepted(g, w);
    }
  }

  lemma PrefixAndSuffix(g: CFG, w: Word, j: nat)
    requires 0 < j <= |w| && DerivesStar(g, [g.start], w[..j] + [g.start]) && InLanguage(g, w[j..])
    ensures InLanguage(g, w)
  {
    hide Derives;
    var u, x := w[..j], w[j..];
    var n: nat :| Derives(g, [g.start], u + [g.start], n);
    assert |u + [g.start]| == j + 1;
    if n == 0 {
      NoDerivation(g, [g.start], u + [g.start]);
      assert false;
    }
    var r := SymbolStep(g, g.start, u + [g.start], n);
    var q :| q in g.rules && q.lhs == g.start && DerivesStar(g, q.rhs, x);
    var m: nat :| Derives(g, q.rhs, x, m);
    RuleStep(g, q, x, m);
    DerivesInContext(g, u, [g.start], x, [], m + 1);
    assert u + [g.start] + [] == u + [g.start] && u + x + [] == w;
    DerivesTransitive(g, r.rhs, u + [g.start], w, n - 1, m + 1);
  }

  /** With the start symbol never expected after a letter, exactly the words of the language are accepted. */
  lemma AcceptsLanguageIfStartComesFirst(g: CFG, w: Word)
    requires StartComesFirst(g)
    ensures SomeSuffixInLanguage(g, w) <==> InLanguage(g, w)
  {
    hide Expected;
    AcceptsLanguageIfPrefixesStay(g, w);
  }

  /** With the start symbol on no right side, exactly the words of the language are accepted. */
  lemma AcceptsLanguageIfStartIsFresh(g: CFG, w: Word)
    requires forall r :: r in g.rules ==> g.start !in r.rhs
    ensures SomeSuffixInLanguage(g, w) <==> InLanguage(g, w)
  {
    hide Derives, Expected;
    forall v, j | 0 < j <= |v| ensures !Expected(g, v, j, g.start) {
      FreshStartComesFirst(g, v, j);
    }
    AcceptsLanguageIfStartComesFirst(g, w);
  }

  lemma FreshStartComesFirst(g: CFG, w: Word, j: nat)
    requires (forall r :: r in g.rules ==> g.start !in r.rhs) && 0 < j <= |w|
    ensures !Expected(g, w, j, g.start)
  {
    hide Derives;
    if Expected(g, w, j, g.start) {
      var rest :| DerivesStar(g, [g.start], w[..j] + [g.start] + rest);
      var goal := w[..j] + [g.start] + rest;
      var n: nat :| Derives(g, [g.start], goal, n);
      assert |goal| == j + 1 + |rest| && goal[j] == g.start;
      if n == 0 {
        NoDerivation(g, [g.start], goal);
      } else {
        var r := SymbolStep(g, g.start, goal, n);
        NeverAppears(g, g.start, r.rhs, goal, n - 1);
      }
    }
  }

  /** S -> S a | a, with S = 0, a = 1. */
  const LEFT_RECURSIVE := CFG([Rule(0, [0, 1]), Rule(0, [1])], {1, 9}, {0}, 0, 9)

  /** Left recursion at the start symbol is recognized rightly, although the start symbol stands on a right side. */
  lemma LeftRecursionIsRight(w: Word)
    ensures SomeSuffixInLanguage(LEFT_RECURSIVE, w) <==> InLanguage(LEFT_RECURSIVE, w)
  {
    hide Derives, Expected;
    var g := LEFT_RECURSIVE;
    forall v, j | 0 < j <= |v| ensures !Expected(g, v, j, g.start) {
      LeftStartComesFirst(v, j);
    }
    AcceptsLanguageIfStartComesFirst(g, w);
  }

  lemma LeftStartComesFirst(w: Word, j: nat)
    requires 0 < j <= |w|
    ensures !Expected(LEFT_RECURSIVE, w, j, 0)
  {
    hide Derives;
    if Expected(LEFT_RECURSIVE, w, j, 0) {
      var rest :| DerivesStar(LEFT_RECURSIVE, [0], w[..j] + [0] + rest);
      var goal := w[..j] + [0] + rest;
      var n: nat :| Derives(LEFT_RECURSIVE, [0], goal, n);
      assert goal[j] == 0;
      StartStaysInFront([0], goal, n);
    }
  }

  /** Only the first symbol of a form can be the start symbol. */
  lemma {:induction false} StartStaysInFront(a: Word, b: Word, n: nat)
    requires Derives(LEFT_RECURSIVE, a, b, n) && forall i :: 0 < i < |a| ==> a[i] != 0
    ensures forall i :: 0 < i < |b| ==> b[i] != 0
    decreases n
  {
    hide Derives;
    if n == 0 {
      NoDerivation(LEFT_RECURSIVE, a, b);
    } else {
      var i, r, c := FirstStep(LEFT_RECURSIVE, a, b, n);
      assert r.rhs == [0, 1] || r.rhs == [1];
      StartStaysInFront(c, b, n - 1);
    }
  }

  /** S -> a S b | a, with S = 0, a = 1, b = 2. */
  const NESTED := CFG([Rule(0, [1, 0, 2]), Rule(0, [1])], {1, 2, 9}, {0}, 0, 9)

  /** The word a.a is accepted although it is not in the language: its last letter is an S that began at 1. */
  lemma AcceptsTooMuch()
    ensures NESTED.Valid() && SomeSuffixInLanguage(NESTED, [1, 1]) && !InLanguage(NESTED, [1, 1])
  {
    hide Derives;
    var g, w: Word := NESTED, [1, 1];
    var r0, r1 := Rule(0, [1, 0, 2]), Rule(0, [1]);
    assert g.rules[0] == r0 && g.rules[1] == r1;
    NoDerivation(g, [1, 0, 2], [1, 0, 2]);
    RuleStep(g, r0, [1, 0, 2], 0);
    assert w[..1] + [0] + [2] == [1, 0, 2];
    assert DerivesStar(g, [g.start], w[..1] + [g.start] + [2]);
    NoDerivation(g, [1], [1]);
    assert DerivesStar(g, r1.rhs, w[1..]);
    assert SuffixInLanguage(g, w, 1);
    if InLanguage(g, w) {
      var r :| r in g.rules && r.lhs == g.start && DerivesStar(g, r.rhs, w);
      var n: nat :| Derives(g, r.rhs, w, n);
      if r == r0 {
        assert [1, 0] + [2] == r0.rhs;
        var x, y, k, m := Split(g, [1, 0], [2], w, n);
        assert |y| > 0 ==> w[1] == y[|y| - 1];
        TerminalDerives(g, 2, y, m);
      } else {
        TerminalDerives(g, 1, w, n);
      }
    }
  }
}