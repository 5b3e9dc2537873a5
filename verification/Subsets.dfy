/** Subsequentialization by subsets of states with pending output delays. */
module Subsets {
  import opened Counting
  import opened Words
  import opened Expanded
  import opened SparseSsfst

  /** A state with the output it still owes. */
  type Owing = (nat, Word)

  type BigState = set<Owing>

  // ---------- one step of the construction, on sets ----------

  /** What reading s leads to, before the common prefix is emitted. */
  ghost predicate Leads(t: FST, b: BigState, s: Symbol, x: Owing) {
    exists p, a {:trigger Via(t, b, s, x, p, a)} :: Via(t, b, s, x, p, a)
  }

  predicate Via(t: FST, b: BigState, s: Symbol, x: Owing, p: Owing, a: Arc) {
    p in b && a in t.arcs && a.from == p.0 && a.sym == s && x == (a.to, p.1 + a.out)
  }

  /** w is the greatest common prefix of the words owed in r. */
  ghost predicate IsGcp(r: BigState, w: Word) {
    r != {} && (forall x :: x in r ==> w <= x.1) && forall c {:trigger Common(r, c)} :: Common(r, c) ==> c <= w
  }

  ghost predicate Common(r: BigState, c: Word) {
    forall x :: x in r ==> c <= x.1
  }

  function Drop(x: Owing, k: nat): Owing {
    (x.0, if k <= |x.1| then x.1[k..] else [])
  }

  function Strip(r: BigState, k: nat): BigState {
    set x | x in r :: Drop(x, k)
  }

  function InitialState(t: FST): BigState {
    set q | q in t.initial :: (q, [])
  }

  // ---------- the pending transitions of one subset ----------

  datatype Pending = Pending(symbol: Symbol, output: Word)

  /** The vectors `pending` and `nextStates` and the index into them, after the triples `got` have been entered. */
  ghost predicate Collected(got: set<(Symbol, nat, Word)>, pending: seq<Pending>, next: seq<BigState>, index: map<Symbol, nat>) {
    && |next| == |pending|
    && (forall i :: 0 <= i < |pending| ==> IsGcp(next[i], pending[i].output))
    && (forall i, x :: 0 <= i < |pending| && x in next[i] ==> (pending[i].symbol, x.0, x.1) in got)
    && (forall g :: g in got ==> g.0 in index && index[g.0] < |next| && (g.1, g.2) in next[index[g.0]])
    && (forall s :: s in index ==> index[s] < |pending| && pending[index[s]].symbol == s)
    && (forall i :: 0 <= i < |pending| ==> pending[i].symbol in index && index[pending[i].symbol] == i)
  }

  lemma GcpOfMore(r: BigState, w: Word, x: Owing)
    requires IsGcp(r, w)
    ensures IsGcp(r + {x}, Gcp(x.1, w))
  {
    var g := Gcp(x.1, w);
    forall c | Common(r + {x}, c) ensures c <= g {
      assert Common(r, c);
      GcpGreatest(x.1, w, c);
    }
  }

  lemma GcpOfOne(x: Owing)
    ensures IsGcp({x}, x.1)
  {
  }

  method Enter(ghost got: set<(Symbol, nat, Word)>, pending0: seq<Pending>, next0: seq<BigState>, index0: map<Symbol, nat>, s: Symbol, x: Owing)
    returns (pending: seq<Pending>, next: seq<BigState>, index: map<Symbol, nat>)
    requires Collected(got, pending0, next0, index0)
    ensures Collected(got + {(s, x.0, x.1)}, pending, next, index)
  {
    hide IsGcp;
    pending, next, index := pending0, next0, index0;
    if s !in index {
      GcpOfOne(x);
      pending, next, index := pending + [Pending(s, x.1)], next + [{x}], index[s := |pending|];
    } else {
      var i := index[s];
      GcpOfMore(next[i], pending[i].output, x);
      pending := pending[i := Pending(s, Gcp(x.1, pending[i].output))];
      next := next[i := next[i] + {x}];
    }
  }

  ghost function TriplesOf(t: FST, p: Owing, n: nat): set<(Symbol, nat, Word)>
    requires n <= |t.arcs|
  {
    set i | 0 <= i < n && t.arcs[i].from == p.0 :: (t.arcs[i].sym, t.arcs[i].to, p.1 + t.arcs[i].out)
  }

  lemma OneMoreTriple(t: FST, p: Owing, n: nat)
    requires n < |t.arcs|
    ensures TriplesOf(t, p, n + 1) == TriplesOf(t, p, n) +
      if t.arcs[n].from == p.0 then {(t.arcs[n].sym, t.arcs[n].to, p.1 + t.arcs[n].out)} else {}
  {
    var i := n;
    var all, some := TriplesOf(t, p, n + 1), TriplesOf(t, p, n);
    forall x | x in all ensures x in some || (t.arcs[n].from == p.0 && x == (t.arcs[n].sym, t.arcs[n].to, p.1 + t.arcs[n].out)) {
      var j :| 0 <= j < n + 1 && t.arcs[j].from == p.0 && x == (t.arcs[j].sym, t.arcs[j].to, p.1 + t.arcs[j].out);
    }
    if t.arcs[n].from == p.0 {
      assert (t.arcs[i].sym, t.arcs[i].to, p.1 + t.arcs[i].out) in all;
    }
  }

  /** All transitions of the states in b, grouped by symbol. */
  method Collect(t: FST, b: BigState) returns (pending: seq<Pending>, next: seq<BigState>)
    ensures |next| == |pending|
    ensures forall i, j :: 0 <= i < j < |pending| ==> pending[i].symbol != pending[j].symbol
    ensures forall i :: 0 <= i < |pending| ==> IsGcp(next[i], pending[i].output)
    ensures forall i, x :: 0 <= i < |pending| ==> (x in next[i] <==> Leads(t, b, pending[i].symbol, x))
    ensures forall s, x {:trigger Leads(t, b, s, x)} :: Leads(t, b, s, x) ==> exists i :: 0 <= i < |pending| && pending[i].symbol == s
  {
    hide IsGcp, Collected, TriplesOf;
    var index: map<Symbol, nat> := map[];
    pending, next := [], [];
    ghost var got: set<(Symbol, nat, Word)> := {};
    assert Collected(got, pending, next, index) by { NothingCollected(); }
    var todo := b;
    while todo != {}
      invariant todo <= b && Collected(got, pending, next, index)
      invariant forall g {:trigger g in got} :: g in got ==> exists p :: p in b - todo && g in TriplesOf(t, p, |t.arcs|)
      invariant forall p {:trigger TriplesOf(t, p, |t.arcs|)} :: p in b - todo ==> TriplesOf(t, p, |t.arcs|) <= got
    {
      var p :| p in todo;
      ghost var before := got;
      NoTriples(t, p);
      for k := 0 to |t.arcs|
        invariant Collected(got, pending, next, index) && got == before + TriplesOf(t, p, k)
      {
        var a := t.arcs[k];
        OneMoreTriple(t, p, k);
        if a.from == p.0 {
          pending, next, index := Enter(got, pending, next, index, a.sym, (a.to, p.1 + a.out));
          got := got + {(a.sym, a.to, p.1 + a.out)};
        }
      }
      todo := todo - {p};
    }
    CollectedLeads(t, b, got, pending, next, index);
  }

  lemma NothingCollected()
    ensures Collected({}, [], [], map[])
  {
  }

  lemma NoTriples(t: FST, p: Owing)
    ensures TriplesOf(t, p, 0) == {}
  {
  }

  lemma CollectedLeads(t: FST, b: BigState, got: set<(Symbol, nat, Word)>, pending: seq<Pending>, next: seq<BigState>, index: map<Symbol, nat>)
    requires Collected(got, pending, next, index)
    requires forall g {:trigger g in got} :: g in got ==> exists p :: p in b && g in TriplesOf(t, p, |t.arcs|)
    requires forall p {:trigger TriplesOf(t, p, |t.arcs|)} :: p in b ==> TriplesOf(t, p, |t.arcs|) <= got
    ensures |next| == |pending|
    ensures forall i, j :: 0 <= i < j < |pending| ==> pending[i].symbol != pending[j].symbol
    ensures forall i :: 0 <= i < |pending| ==> IsGcp(next[i], pending[i].output)
    ensures forall i, x :: 0 <= i < |pending| ==> (x in next[i] <==> Leads(t, b, pending[i].symbol, x))
    ensures forall s, x {:trigger Leads(t, b, s, x)} :: Leads(t, b, s, x) ==> exists i :: 0 <= i < |pending| && pending[i].symbol == s
  {
    hide IsGcp;
    forall s: Symbol, x: Owing | Leads(t, b, s, x) ensures (s, x.0, x.1) in got {
      var p, a :| Via(t, b, s, x, p, a);
      TripleOfArc(t, p, a);
    }
    forall i, x | 0 <= i < |pending| && x in next[i] ensures Leads(t, b, pending[i].symbol, x) {
      var g := (pending[i].symbol, x.0, x.1);
      assert g in got;
      var p :| p in b && g in TriplesOf(t, p, |t.arcs|);
      var a := ArcOfTriple(t, p, g);
      assert Via(t, b, pending[i].symbol, x, p, a);
    }
  }

  lemma TripleOfArc(t: FST, p: Owing, a: Arc)
    requires a in t.arcs && a.from == p.0
    ensures (a.sym, a.to, p.1 + a.out) in TriplesOf(t, p, |t.arcs|)
  {
    var i :| 0 <= i < |t.arcs| && t.arcs[i] == a;
  }

  lemma ArcOfTriple(t: FST, p: Owing, g: (Symbol, nat, Word)) returns (a: Arc)
    requires g in TriplesOf(t, p, |t.arcs|)
    ensures a in t.arcs && a.from == p.0 && g == (a.sym, a.to, p.1 + a.out)
  {
    var i :| 0 <= i < |t.arcs| && t.arcs[i].from == p.0 && g == (t.arcs[i].sym, t.arcs[i].to, p.1 + t.arcs[i].out);
    a := t.arcs[i];
  }

  // ---------- what one row of the result says ----------

  /** No prefix can be taken from all the delays in b any more. */
  ghost predicate Tight(b: BigState) {
    forall c {:trigger Common(b, c)} :: Common(b, c) ==> c == []
  }

  /** Emitting w and moving to b' is what reading s in b comes to. */
  ghost predicate StepOk(t: FST, b: BigState, s: Symbol, w: Word, b': BigState) {
    && b' != {}
    && Tight(b')
    && (forall x {:trigger Leads(t, b, s, x)} :: Leads(t, b, s, x) ==> w <= x.1 && (x.0, x.1[|w|..]) in b')
    && (forall y {:trigger y in b'} :: y in b' ==> Leads(t, b, s, (y.0, w + y.1)))
  }

  lemma StrippedTight(r: BigState, w: Word)
    requires IsGcp(r, w)
    ensures Tight(Strip(r, |w|))
  {
    var b := Strip(r, |w|);
    forall c | Common(b, c) ensures c == [] {
      forall x | x in r ensures w + c <= x.1 {
        assert Drop(x, |w|) in b;
        assert x.1 == w + x.1[|w|..];
        PrefixCancel(w, c, x.1[|w|..]);
      }
      assert Common(r, w + c);
    }
  }

  lemma StrippedStep(t: FST, b: BigState, s: Symbol, r: BigState, w: Word)
    requires IsGcp(r, w) && forall x :: x in r <==> Leads(t, b, s, x)
    ensures StepOk(t, b, s, w, Strip(r, |w|))
  {
    hide Leads;
    StrippedTight(r, w);
    var b' := Strip(r, |w|);
    forall x | Leads(t, b, s, x) ensures w <= x.1 && (x.0, x.1[|w|..]) in b' {
      assert x in r;
      assert Drop(x, |w|) in b';
    }
    forall y | y in b' ensures Leads(t, b, s, (y.0, w + y.1)) {
      var x :| x in r && y == Drop(x, |w|);
      assert w <= x.1 && x.1 == w + x.1[|w|..];
      assert (y.0, w + y.1) == x;
    }
    var x :| x in r;
    assert Drop(x, |w|) in b';
  }

  predicate IsFinalIn(t: FST, x: Owing) {
    x.0 in t.final
  }

  predicate HasFuture(t: FST, q: nat) {
    exists a :: a in t.arcs && a.from == q
  }

  /** Some nonempty word can be read from q. */
  ghost predicate GoesOn(t: FST, q: nat) {
    exists u, v, p :: u != [] && Run(t, q, u, v, p)
  }

  lemma FutureGoesOn(t: FST, q: nat)
    ensures HasFuture(t, q) <==> GoesOn(t, q)
  {
    hide Run;
    if a :| a in t.arcs && a.from == q {
      RunEmpty(t, a.to, [], a.to);
      RunStep(t, a, [], [], a.to);
      assert [a.sym] + [] == [a.sym] && a.out + [] == a.out;
    }
    if u, v, p :| u != [] && Run(t, q, u, v, p) {
      var a, rest := FirstArcOfRun(t, q, u, v, p);
    }
  }

  /** Two final states in b owe different words; when conflicts may be resolved, both of them can go on. */
  ghost predicate Clash(t: FST, b: BigState, strict: bool) {
    exists x, y :: x in b && y in b && IsFinalIn(t, x) && IsFinalIn(t, y) && x.1 != y.1 && (strict || (HasFuture(t, x.0) && HasFuture(t, y.0)))
  }

  /** The output is owed at a final state; it is the only such word, or a tolerated conflict left it to a state that cannot go on. */
  ghost predicate FinalOutOk(t: FST, b: BigState, w: Option<Word>, strict: bool) {
    && (w.None? ==> forall x :: x in b ==> !IsFinalIn(t, x))
    && (w.Some? ==> exists x :: x in b && IsFinalIn(t, x) && x.1 == w.value)
    && (w.Some? ==> AllOwe(t, b, w.value) || (!strict && SomeStuck(t, b, w.value)))
  }

  ghost predicate AllOwe(t: FST, b: BigState, w: Word) {
    forall x :: x in b && IsFinalIn(t, x) ==> x.1 == w
  }

  ghost predicate SomeStuck(t: FST, b: BigState, w: Word) {
    exists x :: x in b && IsFinalIn(t, x) && x.1 == w && !HasFuture(t, x.0)
  }

  /** Which final output a new subset gets, and whether the attempt is given up. */
  method ChooseFinal(t: FST, b: BigState, strict: bool) returns (finalOut: Option<Word>, clash: bool)
    ensures clash ==> Clash(t, b, strict)
    ensures !clash ==> FinalOutOk(t, b, finalOut, strict)
  {
    finalOut, clash := None, false;
    var best: Option<nat> := None;
    var todo := b;
    while todo != {}
      invariant todo <= b
      invariant FinalOutOk(t, b - todo, finalOut, strict)
      invariant finalOut.Some? == best.Some?
      invariant best.Some? ==> (best.value, finalOut.value) in b - todo && IsFinalIn(t, (best.value, finalOut.value))
    {
      var x :| x in todo;
      var was := todo;
      todo := todo - {x};
      assert b - todo == (b - was) + {x};
      if x.0 in t.final {
        var skip := false;
        if finalOut.Some? && x.1 != finalOut.value {
          if strict {
            return finalOut, true;
          }
          var bestGoesOn, thisGoesOn := HasFuture(t, best.value), HasFuture(t, x.0);
          if bestGoesOn && thisGoesOn {
            return finalOut, true;
          }
          skip := thisGoesOn;
        }
        if !skip {
          finalOut, best := Some(x.1), Some(x.0);
        }
      }
    }
    assert b - todo == b;
  }

  // ---------- the universe of subsets ----------

  function Letters(t: FST): set<Symbol> {
    set a, c | a in t.arcs && c in a.out :: c
  }

  function Targets(t: FST): set<nat> {
    t.initial + set a | a in t.arcs :: a.to
  }

  function WordsUpTo(letters: set<Symbol>, k: nat): set<Word> {
    if k == 0 then {[]} else {[]} + set c, w | c in letters && w in WordsUpTo(letters, k - 1) :: [c] + w
  }

  lemma {:induction false} InWordsUpTo(letters: set<Symbol>, k: nat, w: Word)
    requires |w| <= k && forall c :: c in w ==> c in letters
    ensures w in WordsUpTo(letters, k)
    decreases k
  {
    if w != [] {
      InWordsUpTo(letters, k - 1, w[1..]);
      assert w[0] in letters && w == [w[0]] + w[1..];
    }
  }

  ghost function Universe(t: FST, bound: nat): set<Owing> {
    set q, d | q in Targets(t) && d in WordsUpTo(Letters(t), bound) :: (q, d)
  }

  ghost function AllBig(t: FST, bound: nat): set<BigState> {
    set b: BigState | b <= Universe(t, bound)
  }

  /** Every word owed in b is spelled with output letters and is no longer than the bound. */
  ghost predicate Spelled(t: FST, b: BigState, bound: nat) {
    forall x :: x in b ==> x.0 in Targets(t) && |x.1| <= bound && forall c :: c in x.1 ==> c in Letters(t)
  }

  lemma SpelledIsBig(t: FST, b: BigState, bound: nat)
    requires Spelled(t, b, bound)
    ensures b in AllBig(t, bound)
  {
    hide Letters, Targets, WordsUpTo;
    forall x | x in b ensures x in Universe(t, bound) {
      InWordsUpTo(Letters(t), bound, x.1);
    }
  }

  lemma SpelledStart(t: FST, bound: nat)
    ensures Spelled(t, InitialState(t), bound)
  {
  }

  lemma SpelledStep(t: FST, b: BigState, s: Symbol, w: Word, b': BigState, bound: nat)
    requires Spelled(t, b, bound) && StepOk(t, b, s, w, b')
    requires forall y :: y in b' ==> |y.1| <= bound
    ensures Spelled(t, b', bound)
  {
    hide Leads, Tight, Letters, Targets;
    forall y | y in b' ensures y.0 in Targets(t) && forall c :: c in y.1 ==> c in Letters(t) {
      var x := (y.0, w + y.1);
      assert Leads(t, b, s, x);
      SpelledLead(t, b, s, x, bound);
    }
  }

  lemma SpelledLead(t: FST, b: BigState, s: Symbol, x: Owing, bound: nat)
    requires Spelled(t, b, bound) && Leads(t, b, s, x)
    ensures x.0 in Targets(t) && forall c :: c in x.1 ==> c in Letters(t)
  {
    var p, a :| Via(t, b, s, x, p, a);
    forall c | c in x.1 ensures c in Letters(t) {
      assert c in p.1 || c in a.out;
    }
  }

  // ---------- the construction ----------

  /** The row of subset i for the symbol s: a right step, or nothing to read. */
  ghost predicate Moves(t: FST, m: Machine, states: seq<BigState>, i: nat, s: Symbol)
    requires i < |states|
  {
    if (i, s) in m.trans then
      m.trans[(i, s)].1 < |states| && StepOk(t, states[i], s, m.trans[(i, s)].0, states[m.trans[(i, s)].1])
    else
      forall x {:trigger Leads(t, states[i], s, x)} :: !Leads(t, states[i], s, x)
  }

  ghost predicate RowDone(t: FST, m: Machine, states: seq<BigState>, i: nat)
    requires i < |states|
  {
    forall s: Symbol {:trigger Moves(t, m, states, i, s)} :: Moves(t, m, states, i, s)
  }

  /** Final output of subset i; subset 0 is special, because its output is that of the empty word. */
  ghost predicate EndRight(t: FST, m: Machine, i: nat, b: BigState, strict: bool) {
    if i == 0 then
      && (0 in m.finals <==> !(t.initial !! t.final))
      && (if t.fEps == [] then 0 !in m.output else 0 in m.output && m.output[0] == t.fEps[0])
    else
      && (i in m.finals <==> i in m.output)
      && FinalOutOk(t, b, if i in m.output then Some(m.output[i]) else None, strict)
  }

  ghost predicate EndsRight(t: FST, m: Machine, states: seq<BigState>, strict: bool) {
    forall i: nat {:trigger EndRight(t, m, i, states[i], strict)} :: i < |states| ==> EndRight(t, m, i, states[i], strict)
  }

  /** Words that may lead to a subset: those on which every path so far ends in it, with the emitted output cut off. */
  ghost predicate Reads(t: FST, u: Word, o: Word, b: BigState) {
    forall q: nat, v: Word {:trigger Reachable(t, u, v, q)} :: Reachable(t, u, v, q) <==> o <= v && (q, v[|o|..]) in b
  }

  /** Some path from an initial state to q reads u and writes v. */
  ghost predicate Reachable(t: FST, u: Word, v: Word, q: nat) {
    exists p :: p in t.initial && Run(t, p, u, v, q)
  }

  ghost predicate Visited(t: FST, i: nat, b: BigState) {
    exists u: Word, o: Word {:trigger Reads(t, u, o, b)} :: Reads(t, u, o, b) && (i != 0 ==> u != [])
  }

  ghost predicate StateOk(t: FST, i: nat, b: BigState, bound: nat) {
    Spelled(t, b, bound) && Tight(b) && b != {} && Visited(t, i, b)
  }

  ghost predicate StatesOk(t: FST, states: seq<BigState>, bound: nat) {
    && |states| >= 1 && states[0] == InitialState(t)
    && Spelled(t, states[0], bound) && Visited(t, 0, states[0])
    && forall i: nat {:trigger StateOk(t, i, states[i], bound)} :: 1 <= i < |states| ==> StateOk(t, i, states[i], bound)
  }

  /** `stateMap` inverts `states`. */
  ghost predicate Indexed(states: seq<BigState>, stateMap: map<BigState, nat>) {
    && |stateMap| == |states|
    && (forall b {:trigger b in stateMap} :: b in stateMap ==> stateMap[b] < |states| && states[stateMap[b]] == b)
    && (forall i: nat {:trigger states[i]} :: i < |states| ==> states[i] in stateMap && stateMap[states[i]] == i)
  }

  /** Nothing is stored for numbers not given out, and transitions only for subsets already expanded. */
  ghost predicate Bounded(m: Machine, n: nat, rows: set<nat>) {
    && m.n == n
    && (forall k {:trigger k in m.trans} :: k in m.trans ==> k.0 in rows)
    && (forall i {:trigger i in m.finals} :: i in m.finals ==> i < n)
    && (forall i {:trigger i in m.output} :: i in m.output ==> i < n)
  }

  ghost predicate RowsDone(t: FST, m: Machine, states: seq<BigState>, rows: set<nat>) {
    forall i: nat {:trigger i in rows} :: i in rows ==> i < |states| && RowDone(t, m, states, i)
  }

  /** The finished machine. */
  ghost predicate Built(t: FST, m: Machine, states: seq<BigState>, strict: bool, bound: nat) {
    && StatesOk(t, states, bound)
    && EndsRight(t, m, states, strict)
    && (forall i: nat {:trigger RowDone(t, m, states, i)} :: i < |states| ==> RowDone(t, m, states, i))
    && (forall i, j :: 0 <= i < j < |states| ==> states[i] != states[j])
  }

  datatype Outcome = Done | DelayTooLong | NonFunctional

  ghost predicate LcpOfOutputs(t: FST, u: Word, o: Word) {
    && (exists v, q :: Reachable(t, u, v, q))
    && (forall v, q :: Reachable(t, u, v, q) ==> o <= v)
    && forall c {:trigger BelowOutputs(t, u, c)} :: BelowOutputs(t, u, c) ==> c <= o
  }

  ghost predicate BelowOutputs(t: FST, u: Word, c: Word) {
    forall v, q :: Reachable(t, u, v, q) ==> c <= v
  }

  /** On some nonempty word, an output outruns the common part of all outputs by more than the bound. */
  ghost predicate SpreadTooWide(t: FST, bound: nat) {
    exists u, o, v, q :: u != [] && LcpOfOutputs(t, u, o) && Reachable(t, u, v, q) && |v| > |o| + bound
  }

  /** Some nonempty word has two outputs at final states, which both go on unless no conflict is tolerated. */
  ghost predicate Conflict(t: FST, strict: bool) {
    exists u, v, w, p, q :: u != [] && v != w && p in t.final && q in t.final && Reachable(t, u, v, p) && Reachable(t, u, w, q)
      && (strict || (GoesOn(t, p) && GoesOn(t, q)))
  }

  function MaxDelay(t: FST, longest: nat): nat {
    longest * t.n * t.n
  }

  ghost predicate Inv(t: FST, m: Machine, states: seq<BigState>, stateMap: map<BigState, nat>, rows: set<nat>, strict: bool, bound: nat) {
    && StatesOk(t, states, bound)
    && Indexed(states, stateMap)
    && Bounded(m, |states|, rows)
    && EndsRight(t, m, states, strict)
    && RowsDone(t, m, states, rows)
  }

  // ---------- paths and one more symbol ----------

  lemma {:induction false} LastArcOfRun(t: FST, p: nat, u: Word, s: Symbol, v: Word, q: nat) returns (a: Arc, front: Word)
    requires Run(t, p, u + [s], v, q)
    ensures a in t.arcs && a.sym == s && a.to == q && v == front + a.out && Run(t, p, u, front, a.from)
    decreases u
  {
    hide Run;
    var b, rest := FirstArcOfRun(t, p, u + [s], v, q);
    if u == [] {
      assert (u + [s])[1..] == [];
      RunEmpty(t, b.to, rest, q);
      RunEmpty(t, p, [], p);
      assert b.out + [] == [] + b.out;
      a, front := b, [];
    } else {
      assert (u + [s])[1..] == u[1..] + [s];
      var c, middle := LastArcOfRun(t, b.to, u[1..], s, rest, q);
      RunStep(t, b, u[1..], middle, c.from);
      assert [b.sym] + u[1..] == u;
      assert b.out + (middle + c.out) == (b.out + middle) + c.out;
      a, front := c, b.out + middle;
    }
  }

  lemma ReachableStart(t: FST, v: Word, q: nat)
    ensures Reachable(t, [], v, q) <==> q in t.initial && v == []
  {
    if q in t.initial && v == [] {
      RunEmpty(t, q, v, q);
    }
  }

  lemma ReadsStart(t: FST)
    ensures Reads(t, [], [], InitialState(t))
  {
    hide Reachable;
    forall q: nat, v: Word ensures Reachable(t, [], v, q) <==> (q, v[0..]) in InitialState(t) {
      ReachableStart(t, v, q);
      assert v[0..] == v;
    }
  }

  lemma LeadReached(t: FST, u: Word, o: Word, b: BigState, s: Symbol, x: Owing)
    requires Reads(t, u, o, b) && Leads(t, b, s, x)
    ensures Reachable(t, u + [s], o + x.1, x.0)
  {
    var y, a :| Via(t, b, s, x, y, a);
    assert (o + y.1)[|o|..] == y.1;
    assert Reachable(t, u, o + y.1, y.0);
    var p :| p in t.initial && Run(t, p, u, o + y.1, y.0);
    RunThenArc(t, p, u, o + y.1, a);
    assert (o + y.1) + a.out == o + x.1;
  }

  lemma ReachedLeads(t: FST, u: Word, o: Word, b: BigState, s: Symbol, v: Word, q: nat)
    requires Reads(t, u, o, b) && Reachable(t, u + [s], v, q)
    ensures o <= v && Leads(t, b, s, (q, v[|o|..]))
  {
    var p :| p in t.initial && Run(t, p, u + [s], v, q);
    var a, front := LastArcOfRun(t, p, u, s, v, q);
    assert Reachable(t, u, front, a.from);
    assert o <= front && (a.from, front[|o|..]) in b;
    assert v[|o|..] == front[|o|..] + a.out;
    assert Via(t, b, s, (q, v[|o|..]), (a.from, front[|o|..]), a);
  }

  /** One step of the machine keeps track of one more symbol. */
  lemma ReadsStep(t: FST, u: Word, o: Word, b: BigState, s: Symbol, w: Word, b': BigState)
    requires Reads(t, u, o, b) && StepOk(t, b, s, w, b')
    ensures Reads(t, u + [s], o + w, b')
  {
    hide Reachable, Leads, Tight;
    forall q: nat, v: Word ensures Reachable(t, u + [s], v, q) <==> o + w <= v && (q, v[|o + w|..]) in b' {
      if Reachable(t, u + [s], v, q) {
        ReachedLeads(t, u, o, b, s, v, q);
        var rest := v[|o|..];
        assert v == o + rest;
        assert w <= rest && (q, rest[|w|..]) in b';
        PrefixCancel(o, w, rest);
        assert v[|o + w|..] == rest[|w|..];
      }
      if o + w <= v && (q, v[|o + w|..]) in b' {
        var d := v[|o + w|..];
        assert Leads(t, b, s, (q, w + d));
        LeadReached(t, u, o, b, s, (q, w + d));
        assert o + (w + d) == v;
      }
    }
  }

  lemma DeadStep(t: FST, u: Word, o: Word, b: BigState, s: Symbol, v: Word, q: nat)
    requires Reads(t, u, o, b) && forall x {:trigger Leads(t, b, s, x)} :: !Leads(t, b, s, x)
    ensures !Reachable(t, u + [s], v, q)
  {
    hide Reachable, Leads, Reads;
    if Reachable(t, u + [s], v, q) {
      ReachedLeads(t, u, o, b, s, v, q);
    }
  }

  lemma ReadsGcp(t: FST, u: Word, o: Word, b: BigState)
    requires Reads(t, u, o, b) && Tight(b) && b != {}
    ensures LcpOfOutputs(t, u, o)
  {
    hide Reachable;
    forall c | BelowOutputs(t, u, c) ensures c <= o {
      forall x | x in b ensures c <= o + x.1 {
        ReadsOwing(t, u, o, b, x);
      }
      var y :| y in b;
      PrefixesComparable(o, c, o + y.1);
      PrefixesComparable(c, o, o + y.1);
      if |c| >= |o| {
        var k := c[|o|..];
        assert c == o + k;
        forall x | x in b ensures k <= x.1 {
          PrefixCancel(o, k, x.1);
        }
        assert Common(b, k);
      }
    }
    var y :| y in b;
    ReadsOwing(t, u, o, b, y);
  }

  lemma ReadsOwing(t: FST, u: Word, o: Word, b: BigState, x: Owing)
    requires Reads(t, u, o, b) && x in b
    ensures Reachable(t, u, o + x.1, x.0)
  {
    assert (o + x.1)[|o|..] == x.1;
  }

  // ---------- why the construction gives up ----------

  lemma WideSpread(t: FST, u: Word, o: Word, b: BigState, x: Owing, bound: nat)
    requires u != [] && Reads(t, u, o, b) && Tight(b) && x in b && |x.1| > bound
    ensures SpreadTooWide(t, bound)
  {
    hide Reachable, Reads, Tight, LcpOfOutputs;
    ReadsGcp(t, u, o, b);
    ReadsOwing(t, u, o, b, x);
  }

  lemma ClashIsConflict(t: FST, u: Word, o: Word, b: BigState, strict: bool)
    requires u != [] && Reads(t, u, o, b) && Clash(t, b, strict)
    ensures Conflict(t, strict)
  {
    hide Reachable, Reads, HasFuture, GoesOn;
    var x, y :| x in b && y in b && IsFinalIn(t, x) && IsFinalIn(t, y) && x.1 != y.1 && (strict || (HasFuture(t, x.0) && HasFuture(t, y.0)));
    FutureGoesOn(t, x.0);
    FutureGoesOn(t, y.0);
    ReadsOwing(t, u, o, b, x);
    ReadsOwing(t, u, o, b, y);
    assert (o + x.1)[|o|..] == x.1 && (o + y.1)[|o|..] == y.1;
  }

  // ---------- steps of the main loop ----------

  ghost predicate Distinct(stack: seq<nat>, rows: set<nat>) {
    && (forall i, j :: 0 <= i < j < |stack| ==> stack[i] != stack[j])
    && (forall i :: 0 <= i < |stack| ==> stack[i] !in rows)
  }

  /** Emitting the common prefix of each pending transition; gives up on a delay beyond the bound. */
  method StripAll(pending: seq<Pending>, next: seq<BigState>, maxDelay: nat) returns (stripped: seq<BigState>, ok: bool)
    requires |next| == |pending|
    ensures ok ==> |stripped| == |next|
    ensures ok ==> forall i :: 0 <= i < |next| ==> stripped[i] == Strip(next[i], |pending[i].output|) && forall x :: x in stripped[i] ==> |x.1| <= maxDelay
    ensures !ok ==> exists i, x :: 0 <= i < |next| && x in Strip(next[i], |pending[i].output|) && |x.1| > maxDelay
  {
    stripped, ok := [], true;
    for i := 0 to |next|
      invariant |stripped| == i
      invariant forall j :: 0 <= j < i ==> stripped[j] == Strip(next[j], |pending[j].output|) && forall x :: x in stripped[j] ==> |x.1| <= maxDelay
    {
      var k := |pending[i].output|;
      var todo := next[i];
      var b: BigState := {};
      while todo != {}
        invariant todo <= next[i] && b == Strip(next[i] - todo, k)
        invariant forall x :: x in b ==> |x.1| <= maxDelay
      {
        var x :| x in todo;
        var y := Drop(x, k);
        if |y.1| > maxDelay {
          assert y in Strip(next[i], k);
          return stripped, false;
        }
        StripMore(next[i] - todo, x, k);
        assert next[i] - (todo - {x}) == (next[i] - todo) + {x};
        todo, b := todo - {x}, b + {y};
      }
      assert next[i] - todo == next[i];
      stripped := stripped + [b];
    }
  }

  lemma StripMore(r: BigState, x: Owing, k: nat)
    ensures Strip(r + {x}, k) == Strip(r, k) + {Drop(x, k)}
  {
    forall y | y in Strip(r + {x}, k) ensures y in Strip(r, k) + {Drop(x, k)} {
      var z :| z in r + {x} && y == Drop(z, k);
    }
    forall y | y in Strip(r, k) ensures y in Strip(r + {x}, k) {
      var z :| z in r && y == Drop(z, k);
      assert z in r + {x};
    }
    assert x in r + {x};
  }

  ghost function WithFinal(m: Machine, i: nat, w: Option<Word>): Machine {
    match w
    case None => m.(n := i + 1)
    case Some(v) => m.(n := i + 1, finals := m.finals + {i}, output := m.output[i := v])
  }

  /** The number of the subset b, which is new, or found in the map. */
  method Register(t: FST, ssft: SparseSSFST, b: BigState, states0: seq<BigState>, stateMap0: map<BigState, nat>, stack0: seq<nat>, strict: bool)
    returns (states: seq<BigState>, stateMap: map<BigState, nat>, stack: seq<nat>, index: nat, clash: bool)
    requires ssft.n == |states0|
    modifies ssft
    ensures clash ==> Clash(t, b, strict)
    ensures !clash && b in stateMap0 ==>
      states == states0 && stateMap == stateMap0 && stack == stack0 && index == stateMap0[b] && ssft.Value() == old(ssft.Value())
    ensures !clash && b !in stateMap0 ==>
      && states == states0 + [b] && stateMap == stateMap0[b := |states0|] && stack == stack0 + [|states0|] && index == |states0|
      && exists w :: FinalOutOk(t, b, w, strict) && ssft.Value() == WithFinal(old(ssft.Value()), |states0|, w)
  {
    hide FinalOutOk, Clash;
    states, stateMap, stack, clash := states0, stateMap0, stack0, false;
    if b in stateMap {
      index := stateMap[b];
      return;
    }
    index := ssft.NewState();
    var finalOut;
    finalOut, clash := ChooseFinal(t, b, strict);
    if clash {
      return;
    }
    if finalOut.Some? {
      ssft.AddFinal(index);
      ssft.SetPsi(index, finalOut.value);
    }
    states, stateMap, stack := states + [b], stateMap[b := index], stack + [index];
  }

  lemma NewStateKeeps(t: FST, m: Machine, states: seq<BigState>, stateMap: map<BigState, nat>, rows: set<nat>, strict: bool, bound: nat, b: BigState, w: Option<Word>)
    requires Inv(t, m, states, stateMap, rows, strict, bound)
    requires b !in stateMap && StateOk(t, |states|, b, bound) && FinalOutOk(t, b, w, strict)
    ensures Inv(t, WithFinal(m, |states|, w), states + [b], stateMap[b := |states|], rows, strict, bound)
  {
    hide StateOk, FinalOutOk, StepOk, Leads, Spelled, Visited;
    var m' := WithFinal(m, |states|, w);
    var states' := states + [b];
    assert EndRight(t, m', |states|, b, strict);
    forall i: nat | i < |states'| ensures EndRight(t, m', i, states'[i], strict) {
      if i < |states| {
        assert EndRight(t, m, i, states[i], strict);
      }
    }
    forall i: nat | i in rows ensures i < |states'| && RowDone(t, m', states', i) {
      RowKept(t, m, states, m', states', i);
    }
    assert StatesOk(t, states', bound) by {
      forall i: nat | 1 <= i < |states'| ensures StateOk(t, i, states'[i], bound) {
        if i < |states| {
          assert StateOk(t, i, states[i], bound);
        }
      }
    }
  }

  /** A row stays right while its transitions are kept and subsets are only added. */
  lemma RowKept(t: FST, m: Machine, states: seq<BigState>, m': Machine, states': seq<BigState>, i: nat)
    requires i < |states| && RowDone(t, m, states, i) && states <= states'
    requires forall k: (nat, Symbol) {:trigger k in m'.trans} :: k.0 == i ==> (k in m'.trans <==> k in m.trans)
    requires forall k: (nat, Symbol) {:trigger m'.trans[k]} :: k.0 == i && k in m'.trans ==> m'.trans[k] == m.trans[k]
    ensures RowDone(t, m', states', i)
  {
    hide StepOk, Leads;
    forall s: Symbol ensures Moves(t, m', states', i, s) {
      assert Moves(t, m, states, i, s);
      assert (i, s) in m'.trans <==> (i, s) in m.trans;
    }
  }

  /** Each stripped subset follows from the current one by a symbol. */
  ghost predicate Follows(t: FST, b: BigState, pending: seq<Pending>, stripped: seq<BigState>) {
    && |stripped| == |pending|
    && (forall k :: 0 <= k < |pending| ==> StepOk(t, b, pending[k].symbol, pending[k].output, stripped[k]))
    && (forall k, l :: 0 <= k < l < |pending| ==> pending[k].symbol != pending[l].symbol)
    && (forall s, x {:trigger Leads(t, b, s, x)} :: Leads(t, b, s, x) ==> exists k :: 0 <= k < |pending| && pending[k].symbol == s)
  }

  lemma FollowerOk(t: FST, i: nat, b: BigState, s: Symbol, w: Word, b': BigState, bound: nat, index: nat)
    requires Spelled(t, b, bound) && Visited(t, i, b) && StepOk(t, b, s, w, b') && forall y :: y in b' ==> |y.1| <= bound
    ensures StateOk(t, index, b', bound) && exists u, o :: u != [] && Reads(t, u, o, b')
  {
    hide Reads, Leads, Spelled;
    SpelledStep(t, b, s, w, b', bound);
    var u: Word, o: Word :| Reads(t, u, o, b);
    ReadsStep(t, u, o, b, s, w, b');
    assert u + [s] != [];
  }

  /** The stack after the subsets numbered a up to b have been pushed. */
  ghost predicate Pushed(stack0: seq<nat>, stack: seq<nat>, a: nat, b: nat) {
    && a <= b
    && |stack| == |stack0| + (b - a)
    && stack0 <= stack
    && forall i :: |stack0| <= i < |stack| ==> stack[i] == a + i - |stack0|
  }

  /** Subset numbers for all the subsets that the current one leads to. */
  method RegisterAll(t: FST, ssft: SparseSSFST, current: nat, ghost pending: seq<Pending>, stripped: seq<BigState>,
                     states0: seq<BigState>, stateMap0: map<BigState, nat>, stack0: seq<nat>, strict: bool, ghost rows: set<nat>, ghost bound: nat)
    returns (states: seq<BigState>, stateMap: map<BigState, nat>, stack: seq<nat>, remap: seq<nat>, clash: bool)
    requires Inv(t, ssft.Value(), states0, stateMap0, rows, strict, bound)
    requires current < |states0| && |states0| == ssft.n
    requires Spelled(t, states0[current], bound) && Visited(t, current, states0[current])
    requires Follows(t, states0[current], pending, stripped) && |stripped| == |pending|
    requires forall k, y :: 0 <= k < |stripped| && y in stripped[k] ==> |y.1| <= bound
    modifies ssft
    ensures clash ==> Conflict(t, strict)
    ensures !clash ==> Inv(t, ssft.Value(), states, stateMap, rows, strict, bound)
    ensures !clash ==> states0 <= states && Pushed(stack0, stack, |states0|, |states|) && ssft.trans == old(ssft.trans)
    ensures !clash ==> |remap| == |stripped| && forall k :: 0 <= k < |remap| ==> remap[k] < |states| && states[remap[k]] == stripped[k]
  {
    hide StatesOk, EndsRight, RowsDone, StepOk, Spelled, Visited, StateOk, FinalOutOk, Clash, Conflict;
    states, stateMap, stack, remap, clash := states0, stateMap0, stack0, [], false;
    for k := 0 to |stripped|
      invariant Inv(t, ssft.Value(), states, stateMap, rows, strict, bound) && |states| == ssft.n
      invariant states0 <= states && Pushed(stack0, stack, |states0|, |states|) && ssft.trans == old(ssft.trans)
      invariant |remap| == k && forall l :: 0 <= l < k ==> remap[l] < |states| && states[remap[l]] == stripped[l]
    {
      ghost var m, n := ssft.Value(), |states|;
      var index;
      ghost var b, states1, stateMap1 := stripped[k], states, stateMap;
      FollowerOk(t, current, states0[current], pending[k].symbol, pending[k].output, b, bound, n);
      states, stateMap, stack, index, clash := Register(t, ssft, stripped[k], states, stateMap, stack, strict);
      if clash {
        ghost var u, o :| u != [] && Reads(t, u, o, b);
        ClashIsConflict(t, u, o, b, strict);
        return;
      }
      if b !in stateMap1 {
        ghost var w :| FinalOutOk(t, b, w, strict) && ssft.Value() == WithFinal(m, n, w);
        NewStateKeeps(t, m, states1, stateMap1, rows, strict, bound, b, w);
      }
      remap := remap + [index];
    }
  }

  /** The transitions of the current subset are added one by one. */
  method AddRow(ssft: SparseSSFST, current: nat, pending: seq<Pending>, remap: seq<nat>)
    requires |remap| == |pending|
    requires forall k, l :: 0 <= k < l < |pending| ==> pending[k].symbol != pending[l].symbol
    modifies ssft
    ensures ssft.Value() == old(ssft.Value()).(trans := ssft.trans)
    ensures Filled(old(ssft.trans), ssft.trans, current, pending, remap, |pending|)
  {
    for k := 0 to |pending|
      invariant ssft.Value() == old(ssft.Value()).(trans := ssft.trans)
      invariant Filled(old(ssft.trans), ssft.trans, current, pending, remap, k)
    {
      ssft.AddTransition(current, pending[k].symbol, pending[k].output, remap[k]);
    }
  }

  ghost predicate Filled(old_: map<(nat, Symbol), (Word, nat)>, new_: map<(nat, Symbol), (Word, nat)>, i: nat, pending: seq<Pending>, remap: seq<nat>, n: nat)
    requires n <= |pending| == |remap|
  {
    && (forall k: (nat, Symbol) {:trigger k in new_} :: k in new_ <==> k in old_ || (k.0 == i && exists l :: 0 <= l < n && pending[l].symbol == k.1))
    && (forall k: (nat, Symbol) {:trigger new_[k]} :: k in old_ && k.0 != i ==> new_[k] == old_[k])
    && (forall l :: 0 <= l < n ==> (i, pending[l].symbol) in new_ && new_[(i, pending[l].symbol)] == (pending[l].output, remap[l]))
  }

  lemma FilledRow(t: FST, m: Machine, m': Machine, states: seq<BigState>, i: nat, pending: seq<Pending>, stripped: seq<BigState>, remap: seq<nat>)
    requires i < |states| && |remap| == |pending| == |stripped|
    requires Follows(t, states[i], pending, stripped)
    requires forall k :: 0 <= k < |remap| ==> remap[k] < |states| && states[remap[k]] == stripped[k]
    requires forall k: (nat, Symbol) {:trigger k in m.trans} :: k in m.trans ==> k.0 != i
    requires Filled(m.trans, m'.trans, i, pending, remap, |pending|)
    ensures RowDone(t, m', states, i)
  {
    hide StepOk, Leads;
    forall s: Symbol ensures Moves(t, m', states, i, s) {
      if x :| Leads(t, states[i], s, x) {
        var l :| 0 <= l < |pending| && pending[l].symbol == s;
        assert (i, pending[l].symbol) in m'.trans;
      }
      if (i, s) in m'.trans {
        var l :| 0 <= l < |pending| && pending[l].symbol == s;
        assert m'.trans[(i, s)] == (pending[l].output, remap[l]);
      }
    }
  }

  lemma RowAdded(t: FST, m: Machine, m': Machine, states: seq<BigState>, stateMap: map<BigState, nat>, rows: set<nat>, strict: bool, bound: nat,
                 i: nat, pending: seq<Pending>, stripped: seq<BigState>, remap: seq<nat>)
    requires Inv(t, m, states, stateMap, rows, strict, bound)
    requires i < |states| && i !in rows && |remap| == |pending| == |stripped|
    requires Follows(t, states[i], pending, stripped)
    requires forall k :: 0 <= k < |remap| ==> remap[k] < |states| && states[remap[k]] == stripped[k]
    requires m' == m.(trans := m'.trans) && Filled(m.trans, m'.trans, i, pending, remap, |pending|)
    ensures Inv(t, m', states, stateMap, rows + {i}, strict, bound)
  {
    hide StepOk, Leads, Follows, StatesOk, Indexed, RowDone;
    FilledRow(t, m, m', states, i, pending, stripped, remap);
    forall j: nat | j in rows ensures RowDone(t, m', states, j) {
      RowKept(t, m, states, m', states, j);
    }
    assert EndsRight(t, m', states, strict) by {
      forall j: nat | j < |states| ensures EndRight(t, m', j, states[j], strict) {
        assert EndRight(t, m, j, states[j], strict);
      }
    }
  }

  /** The machine with only the initial subset in it. */
  method Begin(t: FST) returns (ssft: SparseSSFST)
    ensures fresh(ssft) && ssft.n == 1 && ssft.trans == map[]
    ensures ssft.finals == (if t.initial !! t.final then {} else {0})
    ensures ssft.output == (if t.fEps == [] then map[] else map[0 := t.fEps[0]])
  {
    ssft := new SparseSSFST();
    var init := ssft.NewState();
    if t.fEps != [] {
      ssft.SetPsi(init, t.fEps[0]);
    }
    var todo := t.initial;
    while todo != {}
      invariant todo <= t.initial
      invariant ssft.n == 1 && ssft.trans == map[]
      invariant ssft.finals == if (t.initial - todo) !! t.final then {} else {0}
      invariant ssft.output == if t.fEps == [] then map[] else map[0 := t.fEps[0]]
    {
      var q :| q in todo;
      assert t.initial - (todo - {q}) == (t.initial - todo) + {q};
      todo := todo - {q};
      if q in t.final {
        ssft.AddFinal(init);
      }
    }
    assert t.initial - todo == t.initial;
  }

  lemma BeginOk(t: FST, m: Machine, strict: bool, bound: nat)
    requires m.n == 1 && m.trans == map[]
    requires m.finals == if t.initial !! t.final then {} else {0}
    requires m.output == if t.fEps == [] then map[] else map[0 := t.fEps[0]]
    ensures Inv(t, m, [InitialState(t)], map[InitialState(t) := 0], {}, strict, bound)
  {
    hide Spelled, Reads, RowDone, FinalOutOk;
    SpelledStart(t, bound);
    ReadsStart(t);
    assert EndRight(t, m, 0, InitialState(t), strict);
  }

  lemma FewStates(t: FST, states: seq<BigState>, stateMap: map<BigState, nat>, bound: nat)
    requires StatesOk(t, states, bound) && Indexed(states, stateMap)
    ensures |states| <= |AllBig(t, bound)|
  {
    hide Spelled, Tight, Visited, AllBig;
    forall b | b in stateMap.Keys ensures b in AllBig(t, bound) {
      var i := stateMap[b];
      assert i >= 1 ==> StateOk(t, i, states[i], bound);
      SpelledIsBig(t, b, bound);
    }
    SubsetSize(stateMap.Keys, AllBig(t, bound));
  }

  lemma StripFollows(t: FST, b: BigState, pending: seq<Pending>, next: seq<BigState>, stripped: seq<BigState>)
    requires |next| == |pending| == |stripped|
    requires forall i, j :: 0 <= i < j < |pending| ==> pending[i].symbol != pending[j].symbol
    requires forall i :: 0 <= i < |pending| ==> IsGcp(next[i], pending[i].output)
    requires forall i, x :: 0 <= i < |pending| ==> (x in next[i] <==> Leads(t, b, pending[i].symbol, x))
    requires forall s, x {:trigger Leads(t, b, s, x)} :: Leads(t, b, s, x) ==> exists i :: 0 <= i < |pending| && pending[i].symbol == s
    requires forall i :: 0 <= i < |next| ==> stripped[i] == Strip(next[i], |pending[i].output|)
    ensures Follows(t, b, pending, stripped)
  {
    hide IsGcp, Leads, StepOk, Strip;
    forall i | 0 <= i < |pending| ensures StepOk(t, b, pending[i].symbol, pending[i].output, stripped[i]) {
      StrippedStep(t, b, pending[i].symbol, next[i], pending[i].output);
    }
  }

  lemma TooLong(t: FST, current: nat, b: BigState, s: Symbol, r: BigState, w: Word, x: Owing, bound: nat)
    requires Visited(t, current, b) && IsGcp(r, w) && forall y :: y in r <==> Leads(t, b, s, y)
    requires x in Strip(r, |w|) && |x.1| > bound
    ensures SpreadTooWide(t, bound)
  {
    hide IsGcp, Leads, Reads, Strip, SpreadTooWide;
    StrippedStep(t, b, s, r, w);
    var u: Word, o: Word :| Reads(t, u, o, b);
    ReadsStep(t, u, o, b, s, w, Strip(r, |w|));
    WideSpread(t, u + [s], o + w, Strip(r, |w|), x, bound);
  }

  /**
   * Builds the subsequential transducer. `longest` is the length of the longest word known to the pool of
   * the input; `strict` says that two outputs at one final subset are never tolerated.
   */
  method Subsequentialize(t: FST, longest: nat, strict: bool) returns (ssft: SparseSSFST, outcome: Outcome, ghost states: seq<BigState>)
    ensures fresh(ssft)
    ensures outcome.Done? ==> Built(t, ssft.Value(), states, strict, MaxDelay(t, longest))
    ensures outcome.NonFunctional? ==> Conflict(t, strict)
    ensures outcome.DelayTooLong? ==> SpreadTooWide(t, MaxDelay(t, longest))
  {
    hide Inv, IsGcp, Leads, Strip, Follows, Conflict, SpreadTooWide, AllBig, MaxDelay, Filled, Built, InitialState;
    var maxDelay := MaxDelay(t, longest);
    ssft := Begin(t);
    var subsets, stateMap, stack: seq<nat> := [InitialState(t)], map[InitialState(t) := 0], [0];
    ghost var rows: set<nat> := {};
    BeginOk(t, ssft.Value(), strict, maxDelay);
    states := subsets;
    while stack != []
      invariant fresh(ssft) && ssft.n == |subsets|
      invariant Inv(t, ssft.Value(), subsets, stateMap, rows, strict, maxDelay)
      invariant Waiting(stack, rows, |subsets|)
      decreases |AllBig(t, maxDelay)| - |subsets|, |stack|
    {
      ghost var before := |subsets|;
      var current := stack[|stack| - 1];
      InvFacts(t, ssft.Value(), subsets, stateMap, rows, strict, maxDelay, current);
      stack := stack[..|stack| - 1];
      var pending, next := Collect(t, subsets[current]);
      var stripped, ok := StripAll(pending, next, maxDelay);
      if !ok {
        ghost var i, x :| 0 <= i < |next| && x in Strip(next[i], |pending[i].output|) && |x.1| > maxDelay;
        TooLong(t, current, subsets[current], pending[i].symbol, next[i], pending[i].output, x, maxDelay);
        return ssft, DelayTooLong, subsets;
      }
      StripFollows(t, subsets[current], pending, next, stripped);
      FollowsLength(t, subsets[current], pending, stripped);
      var remap, clash;
      ghost var subsets0, stack0 := subsets, stack;
      subsets, stateMap, stack, remap, clash := RegisterAll(t, ssft, current, pending, stripped, subsets, stateMap, stack, strict, rows, maxDelay);
      if clash {
        return ssft, NonFunctional, subsets;
      }
      assert subsets[current] == subsets0[current];
      ghost var m := ssft.Value();
      AddRow(ssft, current, pending, remap);
      RowAdded(t, m, ssft.Value(), subsets, stateMap, rows, strict, maxDelay, current, pending, stripped, remap);
      PushedWaiting(stack0, stack, rows, current, before, |subsets|);
      InvFacts(t, ssft.Value(), subsets, stateMap, rows + {current}, strict, maxDelay, current);
      rows := rows + {current};
    }
    outcome, states := Done, subsets;
    AllDone(t, ssft.Value(), subsets, stateMap, rows, strict, maxDelay, stack);
  }

  /** Every subset has its row or waits on the stack, and not both. */
  ghost predicate Waiting(stack: seq<nat>, rows: set<nat>, n: nat) {
    && Distinct(stack, rows)
    && (forall i :: 0 <= i < |stack| ==> stack[i] < n)
    && (forall i: nat {:trigger i in rows} {:trigger i in stack} :: i < n ==> i in rows || i in stack)
  }

  lemma PushedWaiting(stack0: seq<nat>, stack: seq<nat>, rows: set<nat>, current: nat, a: nat, b: nat)
    requires Waiting(stack0 + [current], rows, a) && Pushed(stack0, stack, a, b)
    requires forall i :: i in rows ==> i < a
    ensures Waiting(stack, rows + {current}, b)
  {
    var was := stack0 + [current];
    assert was[|stack0|] == current;
    forall i | 0 <= i < |stack| ensures stack[i] < b {
      if i < |stack0| {
        assert stack[i] == was[i];
      }
    }
    forall i | 0 <= i < |stack| ensures stack[i] !in rows + {current} {
      if i < |stack0| {
        assert stack[i] == was[i];
      }
    }
    forall i, j | 0 <= i < j < |stack| ensures stack[i] != stack[j] {
      if i < |stack0| {
        assert stack[i] == was[i];
      }
      if j < |stack0| {
        assert stack[j] == was[j];
      }
    }
    forall i: nat | i < b ensures i in rows + {current} || i in stack {
      if i < a {
        assert i in rows || i in was;
        if i !in rows && i != current {
          var k :| 0 <= k < |was| && was[k] == i;
          assert stack[k] == i;
        }
      } else {
        assert stack[|stack0| + i - a] == i;
      }
    }
  }

  lemma InvFacts(t: FST, m: Machine, states: seq<BigState>, stateMap: map<BigState, nat>, rows: set<nat>, strict: bool, bound: nat, i: nat)
    requires Inv(t, m, states, stateMap, rows, strict, bound) && i < |states|
    ensures m.n == |states| && |states| <= |AllBig(t, bound)|
    ensures Spelled(t, states[i], bound) && Visited(t, i, states[i])
    ensures forall k :: k in rows ==> k < |states|
  {
    hide Spelled, Tight, Visited, AllBig, EndsRight, RowDone, Indexed;
    FewStates(t, states, stateMap, bound);
    assert i >= 1 ==> StateOk(t, i, states[i], bound);
  }

  lemma FollowsLength(t: FST, b: BigState, pending: seq<Pending>, stripped: seq<BigState>)
    requires Follows(t, b, pending, stripped)
    ensures |stripped| == |pending|
    ensures forall k, l :: 0 <= k < l < |pending| ==> pending[k].symbol != pending[l].symbol
  {
  }

  lemma AllDone(t: FST, m: Machine, states: seq<BigState>, stateMap: map<BigState, nat>, rows: set<nat>, strict: bool, bound: nat, stack: seq<nat>)
    requires Inv(t, m, states, stateMap, rows, strict, bound) && Waiting(stack, rows, |states|) && stack == []
    ensures Built(t, m, states, strict, bound)
  {
    hide RowDone, StatesOk, EndsRight, Bounded;
    forall i: nat | i < |states| ensures RowDone(t, m, states, i) {
      assert i in rows;
    }
  }
}
