/** Composition of two subsequential transducers by a product of states. */
module Compose {
  import opened Counting
  import opened Words
  import opened Subsequential

  /** The second transducer: deterministic, every state final; a letter without an entry cannot be read. */
  datatype Second = Second(step: seq<map<Symbol, (Word, nat)>>, psi: seq<Word>, initialOut: Word) {
    predicate Valid() {
      && |step| == |psi| >= 1
      && forall q, l {:trigger l in step[q]} :: 0 <= q < |step| && l in step[q] ==> step[q][l].1 < |step|
    }
  }

  /** The letters of w read from q: what is emitted and where it ends, without the initial output. */
  function Drive(s: Second, q: nat, w: Word): (r: Option<(Word, nat)>)
    requires s.Valid() && q < |s.step|
    ensures r.Some? ==> r.value.1 < |s.step|
    decreases w
  {
    if w == [] then Some(([], q))
    else if w[0] !in s.step[q] then None
    else
      var (out, q') := s.step[q][w[0]];
      match Drive(s, q', w[1..])
      case None => None
      case Some((o, p)) => Some((out + o, p))
  }

  /** The function of the second transducer, from state q on, without the initial output. */
  function Ending(s: Second, q: nat, w: Word): Option<Word>
    requires s.Valid() && q < |s.step|
  {
    match Drive(s, q, w)
    case None => None
    case Some((o, p)) => Some(o + s.psi[p])
  }

  /** An arc for each entry of a row. */
  ghost function ArcsOf(row: map<Symbol, (Word, nat)>): (arcs: seq<Arc>)
    ensures forall a :: a in arcs <==> a.sym in row && row[a.sym] == (a.out, a.to)
    decreases |row|
  {
    if row.Keys == {} then []
    else
      var l :| l in row.Keys;
      RowShrinks(row, l);
      [Arc(l, row[l].0, row[l].1)] + ArcsOf(row - {l})
  }

  lemma RowShrinks(row: map<Symbol, (Word, nat)>, l: Symbol)
    requires l in row
    ensures |row - {l}| < |row|
    ensures forall k :: k in row <==> k == l || k in row - {l}
    ensures forall k :: k in row - {l} ==> k != l && (row - {l})[k] == row[k]
  {
    assert (row - {l}).Keys == row.Keys - {l};
    assert |(row - {l}).Keys| == |row - {l}| && |row.Keys| == |row|;
  }

  /** The second transducer as a subsequential transducer whose states are all final. */
  ghost function AsSsfst(s: Second): (t: SSFST)
    requires s.Valid()
    ensures t.Valid() && t.Size() == |s.step| && t.initialOut == s.initialOut
    ensures forall q {:trigger t.psi[q]} :: 0 <= q < |s.step| ==> t.psi[q] == Some(s.psi[q])
    ensures forall q, a {:trigger a in t.arcs[q]} :: 0 <= q < |s.step| ==> (a in t.arcs[q] <==> a.sym in s.step[q] && s.step[q][a.sym] == (a.out, a.to))
  {
    var arcs := seq(|s.step|, q requires 0 <= q < |s.step| => ArcsOf(s.step[q]));
    assert forall q {:trigger arcs[q]} :: 0 <= q < |s.step| ==> arcs[q] == ArcsOf(s.step[q]);
    SSFST(arcs, seq(|s.psi|, q requires 0 <= q < |s.psi| => Some(s.psi[q])), s.initialOut)
  }

  lemma EndingNothing(s: Second, q: nat)
    requires s.Valid() && q < |s.step|
    ensures Ending(s, q, []) == Some(s.psi[q])
  {
    assert [] + s.psi[q] == s.psi[q];
  }

  lemma EndingStep(s: Second, q: nat, w: Word)
    requires s.Valid() && q < |s.step| && w != []
    ensures Ending(s, q, w) ==
      if w[0] !in s.step[q] then None
      else match Ending(s, s.step[q][w[0]].1, w[1..]) case None => None case Some(v) => Some(s.step[q][w[0]].0 + v)
  {
    if w[0] in s.step[q] {
      var (out, p) := s.step[q][w[0]];
      match Drive(s, p, w[1..])
      case None =>
      case Some((o, p')) => assert (out + o) + s.psi[p'] == out + (o + s.psi[p']);
    }
  }

  /** The function of the second transducer is its relation: from every state its runs on a word emit one word at most. */
  lemma {:induction false} EndingIsRelation(s: Second, q: nat, w: Word, v: Word)
    requires s.Valid() && q < |s.step|
    ensures Rel(AsSsfst(s), q, w, v) <==> Ending(s, q, w) == Some(v)
    decreases w
  {
    hide Rel, AsSsfst, Drive;
    var t := AsSsfst(s);
    if w == [] {
      RelEnd(t, q, v);
      EndingNothing(s, q);
    } else {
      assert w == [w[0]] + w[1..];
      EndingStep(s, q, w);
      if Rel(t, q, w, v) {
        var a, rest := FirstArc(t, q, w, v);
        EndingIsRelation(s, a.to, w[1..], rest);
      }
      if Ending(s, q, w) == Some(v) {
        var (out, p) := s.step[q][w[0]];
        var a, rest := Arc(w[0], out, p), Ending(s, p, w[1..]).value;
        EndingIsRelation(s, p, w[1..], rest);
        assert a in t.arcs[q] && v == out + rest;
        RelStep(t, q, a, w[1..], rest);
      }
    }
  }

  lemma {:induction false} DriveJoin(s: Second, q: nat, a: Word, b: Word)
    requires s.Valid() && q < |s.step|
    ensures Drive(s, q, a + b) == match Drive(s, q, a)
      case None => None
      case Some((o, p)) => (match Drive(s, p, b) case None => None case Some((o', p')) => Some((o + o', p')))
    decreases a
  {
    if a == [] {
      assert a + b == b;
      match Drive(s, q, b)
      case None =>
      case Some((o, p)) => assert [] + o == o;
    } else {
      assert (a + b)[1..] == a[1..] + b;
      if a[0] in s.step[q] {
        var (out, q') := s.step[q][a[0]];
        DriveJoin(s, q', a[1..], b);
        match Drive(s, q', a[1..])
        case None =>
        case Some((o, p)) =>
          match Drive(s, p, b)
          case None =>
          case Some((o', p')) => assert out + (o + o') == (out + o) + o';
      }
    }
  }

  lemma EndingJoin(s: Second, q: nat, a: Word, b: Word)
    requires s.Valid() && q < |s.step|
    ensures Drive(s, q, a).None? ==> Ending(s, q, a + b).None?
    ensures Drive(s, q, a).Some? ==>
      var (o, p) := Drive(s, q, a).value;
      Ending(s, q, a + b) == if Ending(s, p, b).Some? then Some(o + Ending(s, p, b).value) else None
  {
    hide Drive;
    DriveJoin(s, q, a, b);
    if Drive(s, q, a).Some? {
      var (o, p) := Drive(s, q, a).value;
      if Drive(s, p, b).Some? {
        var (o', p') := Drive(s, p, b).value;
        assert o + (o' + s.psi[p']) == (o + o') + s.psi[p'];
      }
    }
  }

  lemma DriveIsRelation(s: Second, q: nat, w: Word)
    requires s.Valid() && q < |s.step|
    ensures forall v :: Rel(AsSsfst(s), q, w, v) <==>
      match Drive(s, q, w) case None => false case Some((o, p)) => s.initialOut + v == (s.initialOut + o) + s.psi[p]
  {
    hide Rel, AsSsfst, Drive;
    forall v ensures Rel(AsSsfst(s), q, w, v) <==>
      match Drive(s, q, w) case None => false case Some((o, p)) => s.initialOut + v == (s.initialOut + o) + s.psi[p]
    {
      EndingIsRelation(s, q, w, v);
      if Drive(s, q, w).Some? {
        var (o, p) := Drive(s, q, w).value;
        assert (s.initialOut + o) + s.psi[p] == s.initialOut + (o + s.psi[p]);
        assert (s.initialOut + v)[|s.initialOut|..] == v && (s.initialOut + (o + s.psi[p]))[|s.initialOut|..] == o + s.psi[p];
      }
    }
  }

  /** The accumulating loop: the initial output of the second transducer is emitted first, on every call. */
  method DriveSecond(s: Second, q: nat, w: Word) returns (r: Option<(Word, nat)>)
    requires s.Valid() && q < |s.step|
    ensures r == match Drive(s, q, w) case None => None case Some((o, p)) => Some((s.initialOut + o, p))
    ensures forall v :: Rel(AsSsfst(s), q, w, v) <==> r.Some? && s.initialOut + v == r.value.0 + s.psi[r.value.1]
  {
    hide Rel, AsSsfst;
    DriveIsRelation(s, q, w);
    if w == [] {
      assert s.initialOut + [] == s.initialOut;
      return Some((s.initialOut, q));
    }
    if w[0] !in s.step[q] {
      return None;
    }
    var (acc, p) := s.step[q][w[0]];
    ghost var first := acc;
    acc := s.initialOut + acc;
    var i := 1;
    ghost var done := first;
    while i < |w|
      invariant 1 <= i <= |w| && 0 <= p < |s.step| && acc == s.initialOut + done
      invariant Drive(s, q, w) == match Drive(s, p, w[i..]) case None => None case Some((o, p')) => Some((done + o, p'))
    {
      assert w[i..][0] == w[i] && w[i..][1..] == w[i + 1..];
      if w[i] !in s.step[p] {
        return None;
      }
      var (piece, next) := s.step[p][w[i]];
      match Drive(s, next, w[i + 1..]) {
        case None =>
        case Some((o, p')) => assert done + (piece + o) == (done + piece) + o;
      }
      assert (s.initialOut + done) + piece == s.initialOut + (done + piece);
      acc, p, done, i := acc + piece, next, done + piece, i + 1;
    }
    assert w[i..] == [];
    assert done + [] == done;
    return Some((acc, p));
  }

  // ---------- the product ----------

  type BigState = (nat, nat)

  predicate BigOk(t: SSFST, s: Second, b: BigState) {
    b.0 < t.Size() && b.1 < |s.step|
  }

  /** The final output of a product state. */
  function PsiOf(t: SSFST, s: Second, b: BigState): Option<Word>
    requires t.Valid() && s.Valid() && BigOk(t, s, b)
  {
    match t.psi[b.0]
    case None => None
    case Some(w) =>
      match Drive(s, b.1, w)
      case None => None
      case Some((o, p)) => Some(s.initialOut + o + s.psi[p])
  }

  /** The product arc c, leading to the subset numbered c.to, comes from the arc a of the first transducer. */
  ghost predicate Comes(t: SSFST, s: Second, b: BigState, a: Arc, c: Arc, to: BigState)
    requires t.Valid() && s.Valid() && BigOk(t, s, b)
  {
    && a in t.arcs[b.0] && c.sym == a.sym
    && match Drive(s, b.1, a.out)
       case None => false
       case Some((o, p)) => c.out == s.initialOut + o && to == (a.to, p)
  }

  ghost predicate RowOk(t: SSFST, s: Second, out: SSFST, bigs: seq<BigState>, i: nat)
    requires t.Valid() && s.Valid() && |out.arcs| == |out.psi| == |bigs| && i < |bigs| && BigOk(t, s, bigs[i])
  {
    && out.psi[i] == PsiOf(t, s, bigs[i])
    && RowUpTo(t, s, out.arcs[i], bigs, i, |t.arcs[bigs[i].0]|)
  }

  /** The arcs of product state i after the first n arcs of its first component. */
  ghost predicate RowUpTo(t: SSFST, s: Second, row: seq<Arc>, bigs: seq<BigState>, i: nat, n: nat)
    requires t.Valid() && s.Valid() && i < |bigs| && BigOk(t, s, bigs[i]) && n <= |t.arcs[bigs[i].0]|
  {
    && (forall c {:trigger c in row} :: c in row ==> c.to < |bigs| && exists a {:trigger Comes(t, s, bigs[i], a, c, bigs[c.to])} :: Comes(t, s, bigs[i], a, c, bigs[c.to]))
    && (forall j {:trigger t.arcs[bigs[i].0][j]} :: 0 <= j < n && Drive(s, bigs[i].1, t.arcs[bigs[i].0][j].out).Some? ==> HasImage(t, s, row, bigs, i, t.arcs[bigs[i].0][j]))
  }

  ghost predicate HasImage(t: SSFST, s: Second, row: seq<Arc>, bigs: seq<BigState>, i: nat, a: Arc)
    requires t.Valid() && s.Valid() && i < |bigs| && BigOk(t, s, bigs[i])
  {
    exists c {:trigger c in row} :: c in row && c.to < |bigs| && Comes(t, s, bigs[i], a, c, bigs[c.to])
  }

  ghost predicate Numbered(t: SSFST, s: Second, bigs: seq<BigState>, stateRemap: map<BigState, nat>) {
    && |stateRemap| == |bigs|
    && (forall b {:trigger b in stateRemap} :: b in stateRemap ==> stateRemap[b] < |bigs| && bigs[stateRemap[b]] == b && BigOk(t, s, b))
    && (forall i: nat {:trigger bigs[i]} :: i < |bigs| ==> bigs[i] in stateRemap && stateRemap[bigs[i]] == i)
  }

  /** The finished product: product state 0 is the start, and every product state is expanded. */
  ghost predicate Product(t: SSFST, s: Second, out: SSFST, bigs: seq<BigState>)
    requires t.Valid() && s.Valid() && t.Size() > 0
  {
    && out.Valid() && |out.arcs| == |bigs| >= 1
    && (forall i :: 0 <= i < |bigs| ==> BigOk(t, s, bigs[i]))
    && match Drive(s, 0, t.initialOut)
       case None => out.arcs == [[]] && out.psi == [None]
       case Some((o, p)) =>
         && bigs[0] == (0, p) && out.initialOut == s.initialOut + o
         && forall i: nat {:trigger RowOk(t, s, out, bigs, i)} :: i < |bigs| ==> RowOk(t, s, out, bigs, i)
  }

  // ---------- the pairs that are met ----------

  function Start(t: SSFST, s: Second): BigState
    requires t.Valid() && s.Valid() && Drive(s, 0, t.initialOut).Some?
  {
    (0, Drive(s, 0, t.initialOut).value.1)
  }

  /** The pair b is reached from the start by n arcs that the second transducer can follow. */
  ghost predicate MetAfter(t: SSFST, s: Second, b: BigState, n: nat)
    requires t.Valid() && s.Valid()
    decreases n
  {
    if n == 0 then Drive(s, 0, t.initialOut).Some? && b == Start(t, s)
    else exists c, a {:trigger MetAfter(t, s, c, n - 1), Follows(t, s, c, a, b)} :: MetAfter(t, s, c, n - 1) && Follows(t, s, c, a, b)
  }

  ghost predicate Follows(t: SSFST, s: Second, c: BigState, a: Arc, b: BigState)
    requires t.Valid() && s.Valid()
  {
    BigOk(t, s, c) && a in t.arcs[c.0] && Drive(s, c.1, a.out).Some? && b == (a.to, Drive(s, c.1, a.out).value.1)
  }

  ghost predicate Met(t: SSFST, s: Second, b: BigState)
    requires t.Valid() && s.Valid()
  {
    exists n :: MetAfter(t, s, b, n)
  }

  /** Some pair met has a first component without a final output. */
  ghost predicate MeetsNonFinal(t: SSFST, s: Second)
    requires t.Valid() && s.Valid()
  {
    exists b: BigState {:trigger Met(t, s, b)} :: Met(t, s, b) && b.0 < t.Size() && t.psi[b.0].None?
  }

  ghost predicate AllMet(t: SSFST, s: Second, bs: seq<BigState>)
    requires t.Valid() && s.Valid()
  {
    forall i {:trigger bs[i]} :: 0 <= i < |bs| ==> Met(t, s, bs[i])
  }

  lemma StartIsMet(t: SSFST, s: Second)
    requires t.Valid() && s.Valid() && Drive(s, 0, t.initialOut).Some?
    ensures Met(t, s, Start(t, s))
  {
    hide Drive;
    assert MetAfter(t, s, Start(t, s), 0);
  }

  lemma NextIsMet(t: SSFST, s: Second, c: BigState, a: Arc, b: BigState)
    requires t.Valid() && s.Valid() && Met(t, s, c) && Follows(t, s, c, a, b)
    ensures Met(t, s, b)
  {
    hide Follows;
    var n: nat :| MetAfter(t, s, c, n);
    assert MetAfter(t, s, b, n + 1);
  }

  lemma MetAt(t: SSFST, s: Second, bs: seq<BigState>, i: nat)
    requires t.Valid() && s.Valid() && AllMet(t, s, bs) && i < |bs|
    ensures Met(t, s, bs[i])
  {
    hide Met;
  }

  lemma MetTail(t: SSFST, s: Second, bs: seq<BigState>)
    requires t.Valid() && s.Valid() && AllMet(t, s, bs) && bs != []
    ensures Met(t, s, bs[0]) && AllMet(t, s, bs[1..])
  {
    hide Met;
  }

  lemma MetSnoc(t: SSFST, s: Second, bs: seq<BigState>, b: BigState)
    requires t.Valid() && s.Valid() && AllMet(t, s, bs) && Met(t, s, b)
    ensures AllMet(t, s, bs + [b])
  {
    hide Met;
  }

  /** Everything that is met is a state of a finished product. */
  lemma {:induction false} MetIsKnown(t: SSFST, s: Second, out: SSFST, bigs: seq<BigState>, b: BigState, n: nat) returns (i: nat)
    requires t.Valid() && s.Valid() && t.Size() > 0 && Product(t, s, out, bigs) && MetAfter(t, s, b, n)
    ensures i < |bigs| && bigs[i] == b && Drive(s, 0, t.initialOut).Some?
    decreases n
  {
    hide Drive, PsiOf;
    if n == 0 {
      i := 0;
    } else {
      var c, a :| MetAfter(t, s, c, n - 1) && Follows(t, s, c, a, b);
      var k := MetIsKnown(t, s, out, bigs, c, n - 1);
      assert RowOk(t, s, out, bigs, k);
      i := ImageOf(t, s, out.arcs[k], bigs, k, a, b);
    }
  }

  lemma ImageOf(t: SSFST, s: Second, row: seq<Arc>, bigs: seq<BigState>, k: nat, a: Arc, b: BigState) returns (i: nat)
    requires t.Valid() && s.Valid() && k < |bigs| && BigOk(t, s, bigs[k]) && RowUpTo(t, s, row, bigs, k, |t.arcs[bigs[k].0]|)
    requires Follows(t, s, bigs[k], a, b)
    ensures i < |bigs| && bigs[i] == b
  {
    hide Drive;
    var j :| 0 <= j < |t.arcs[bigs[k].0]| && t.arcs[bigs[k].0][j] == a;
    assert HasImage(t, s, row, bigs, k, a);
    var c :| c in row && c.to < |bigs| && Comes(t, s, bigs[k], a, c, bigs[c.to]);
    i := c.to;
  }

  // ---------- building it ----------

  /** The builder interface of the result. */
  class ComposedFst {
    var arcs: seq<seq<Arc>>
    var psi: seq<Option<Word>>
    var initialOut: Word

    ghost function Value(): SSFST
      reads this
    {
      SSFST(arcs, psi, initialOut)
    }

    constructor ()
      ensures Value() == SSFST([], [], [])
    {
      arcs, psi, initialOut := [], [], [];
    }

    method NewState() returns (q: nat)
      modifies this
      ensures q == |old(arcs)| && Value() == SSFST(old(arcs) + [[]], old(psi) + [None], old(initialOut))
    {
      q := |arcs|;
      arcs, psi := arcs + [[]], psi + [None];
    }

    method AddTransition(from: nat, sym: Symbol, out: Word, to: nat)
      requires from < |arcs|
      modifies this
      ensures Value() == old(Value()).(arcs := old(arcs)[from := old(arcs)[from] + [Arc(sym, out, to)]])
    {
      arcs := arcs[from := arcs[from] + [Arc(sym, out, to)]];
    }

    method SetPsi(q: nat, out: Word)
      requires q < |psi|
      modifies this
      ensures Value() == old(Value()).(psi := old(psi)[q := Some(out)])
    {
      psi := psi[q := Some(out)];
    }

    method SetInitialOutput(out: Word)
      modifies this
      ensures Value() == old(Value()).(initialOut := out)
    {
      initialOut := out;
    }
  }

  /** Rows of states not yet visited are empty; those of visited states are right, except for the one being written. */
  ghost predicate RowsOk(t: SSFST, s: Second, out: SSFST, bigs: seq<BigState>, visited: set<nat>, open: set<nat>)
    requires t.Valid() && s.Valid()
  {
    && |out.arcs| == |out.psi| == |bigs|
    && (forall i: nat {:trigger bigs[i]} :: i < |bigs| ==> BigOk(t, s, bigs[i]))
    && (forall i: nat {:trigger i in visited} :: i in visited ==> i < |bigs| && RowOk(t, s, out, bigs, i))
    && (forall i: nat {:trigger out.arcs[i]} :: i < |bigs| && i !in visited && i !in open ==> out.arcs[i] == [] && out.psi[i] == None)
  }

  lemma ComesStays(t: SSFST, s: Second, row: seq<Arc>, bigs: seq<BigState>, more: seq<BigState>, i: nat, n: nat)
    requires t.Valid() && s.Valid() && i < |bigs| && BigOk(t, s, bigs[i]) && n <= |t.arcs[bigs[i].0]| && bigs <= more
    requires RowUpTo(t, s, row, bigs, i, n)
    ensures RowUpTo(t, s, row, more, i, n)
  {
    hide Comes, Drive;
    forall c | c in row ensures c.to < |more| && exists a {:trigger Comes(t, s, more[i], a, c, more[c.to])} :: Comes(t, s, more[i], a, c, more[c.to]) {
      var a :| Comes(t, s, bigs[i], a, c, bigs[c.to]);
      assert more[c.to] == bigs[c.to] && more[i] == bigs[i];
    }
    forall j | 0 <= j < n && Drive(s, more[i].1, t.arcs[more[i].0][j].out).Some? ensures HasImage(t, s, row, more, i, t.arcs[more[i].0][j]) {
      var a := t.arcs[bigs[i].0][j];
      assert HasImage(t, s, row, bigs, i, a);
      var c :| c in row && c.to < |bigs| && Comes(t, s, bigs[i], a, c, bigs[c.to]);
      assert more[c.to] == bigs[c.to] && more[i] == bigs[i];
    }
  }

  lemma RowStays(t: SSFST, s: Second, out: SSFST, out': SSFST, bigs: seq<BigState>, more: seq<BigState>, i: nat)
    requires t.Valid() && s.Valid() && |out.arcs| == |out.psi| == |bigs| && |out'.arcs| == |out'.psi| == |more| && bigs <= more
    requires i < |bigs| && BigOk(t, s, bigs[i]) && RowOk(t, s, out, bigs, i) && out'.arcs[i] == out.arcs[i] && out'.psi[i] == out.psi[i]
    ensures BigOk(t, s, more[i]) && RowOk(t, s, out', more, i)
  {
    hide RowUpTo, PsiOf;
    assert more[i] == bigs[i];
    ComesStays(t, s, out.arcs[i], bigs, more, i, |t.arcs[bigs[i].0]|);
  }

  lemma RowCount(t: SSFST, s: Second, out: SSFST, bigs: seq<BigState>, visited: set<nat>, open: set<nat>)
    requires t.Valid() && s.Valid() && RowsOk(t, s, out, bigs, visited, open)
    ensures |out.arcs| == |out.psi| == |bigs|
  {
  }

  /** A fresh state has an empty row and changes no other. */
  lemma RowsStay(t: SSFST, s: Second, was: SSFST, now: SSFST, bigs: seq<BigState>, b: BigState, visited: set<nat>, open: set<nat>)
    requires t.Valid() && s.Valid() && RowsOk(t, s, was, bigs, visited, open) && BigOk(t, s, b)
    requires now == SSFST(was.arcs + [[]], was.psi + [None], was.initialOut)
    ensures RowsOk(t, s, now, bigs + [b], visited, open)
  {
    hide RowOk, BigOk;
    var more := bigs + [b];
    forall i: nat | i < |more| ensures BigOk(t, s, more[i]) {
      assert i < |bigs| ==> more[i] == bigs[i];
    }
    forall i: nat | i in visited ensures i < |more| && RowOk(t, s, now, more, i) {
      RowStays(t, s, was, now, bigs, more, i);
    }
    forall i: nat | i < |more| && i !in visited && i !in open ensures now.arcs[i] == [] && now.psi[i] == None {
      assert i < |bigs| ==> now.arcs[i] == was.arcs[i];
    }
  }

  method StateId(t: SSFST, s: Second, out: ComposedFst, b: BigState, bigs0: seq<BigState>, stateRemap0: map<BigState, nat>, ghost visited: set<nat>, ghost open: set<nat>)
    returns (bigs: seq<BigState>, stateRemap: map<BigState, nat>, id: nat)
    requires t.Valid() && s.Valid() && BigOk(t, s, b)
    requires Numbered(t, s, bigs0, stateRemap0) && RowsOk(t, s, out.Value(), bigs0, visited, open) && forall i :: i in open ==> i < |bigs0|
    modifies out
    ensures Numbered(t, s, bigs, stateRemap) && RowsOk(t, s, out.Value(), bigs, visited, open)
    ensures bigs0 <= bigs && id < |bigs| && bigs[id] == b && out.initialOut == old(out.initialOut)
    ensures b in stateRemap0 ==> bigs == bigs0 && out.Value() == old(out.Value())
    ensures b !in stateRemap0 ==> bigs == bigs0 + [b] && id == |bigs0|
    ensures forall i :: 0 <= i < |bigs0| ==> out.arcs[i] == old(out.arcs[i]) && out.psi[i] == old(out.psi[i])
  {
    hide RowsOk, BigOk;
    bigs, stateRemap := bigs0, stateRemap0;
    RowCount(t, s, out.Value(), bigs, visited, open);
    if b in stateRemap {
      id := stateRemap[b];
      return;
    }
    ghost var was := out.Value();
    id := out.NewState();
    RowsStay(t, s, was, out.Value(), bigs0, b, visited, open);
    bigs, stateRemap := bigs + [b], stateRemap[b := id];
  }

  lemma RowBegins(t: SSFST, s: Second, row: seq<Arc>, bigs: seq<BigState>, i: nat)
    requires t.Valid() && s.Valid() && i < |bigs| && BigOk(t, s, bigs[i]) && row == []
    ensures RowUpTo(t, s, row, bigs, i, 0)
  {
  }

  lemma RowSkips(t: SSFST, s: Second, row: seq<Arc>, bigs: seq<BigState>, i: nat, n: nat)
    requires t.Valid() && s.Valid() && i < |bigs| && BigOk(t, s, bigs[i]) && n < |t.arcs[bigs[i].0]|
    requires RowUpTo(t, s, row, bigs, i, n) && Drive(s, bigs[i].1, t.arcs[bigs[i].0][n].out).None?
    ensures RowUpTo(t, s, row, bigs, i, n + 1)
  {
    hide HasImage, Drive, Comes;
  }

  lemma RowGrows(t: SSFST, s: Second, row: seq<Arc>, bigs: seq<BigState>, i: nat, n: nat, c: Arc)
    requires t.Valid() && s.Valid() && i < |bigs| && BigOk(t, s, bigs[i]) && n < |t.arcs[bigs[i].0]|
    requires RowUpTo(t, s, row, bigs, i, n) && c.to < |bigs| && Comes(t, s, bigs[i], t.arcs[bigs[i].0][n], c, bigs[c.to])
    ensures RowUpTo(t, s, row + [c], bigs, i, n + 1)
  {
    hide Drive, Comes;
    var row' := row + [c];
    assert row'[|row|] == c;
    forall j | 0 <= j < n + 1 && Drive(s, bigs[i].1, t.arcs[bigs[i].0][j].out).Some? ensures HasImage(t, s, row', bigs, i, t.arcs[bigs[i].0][j]) {
      if j < n {
        var a := t.arcs[bigs[i].0][j];
        assert HasImage(t, s, row, bigs, i, a);
        var d :| d in row && d.to < |bigs| && Comes(t, s, bigs[i], a, d, bigs[d.to]);
        assert d in row';
      } else {
        assert c in row';
      }
    }
  }

  ghost predicate Waiting(bigs: seq<BigState>, visited: set<nat>, queue: seq<BigState>) {
    && (forall i {:trigger i in visited} :: i in visited ==> i < |bigs|)
    && (forall i: nat {:trigger bigs[i]} :: i < |bigs| ==> i in visited || bigs[i] in queue)
  }

  ghost predicate QueueOk(t: SSFST, s: Second, queue: seq<BigState>) {
    forall b {:trigger b in queue} :: b in queue ==> BigOk(t, s, b)
  }

  lemma RowsOpen(t: SSFST, s: Second, out: SSFST, bigs: seq<BigState>, visited: set<nat>, i: nat)
    requires t.Valid() && s.Valid() && RowsOk(t, s, out, bigs, visited, {}) && i < |bigs| && i !in visited
    ensures RowsOk(t, s, out, bigs, visited, {i}) && out.arcs[i] == [] && out.psi[i] == None
  {
    hide RowOk;
    var row := out.arcs[i];
    forall k: nat | k in visited ensures k < |bigs| && RowOk(t, s, out, bigs, k) {
    }
    forall k: nat | k < |bigs| && k !in visited && k !in {i} ensures out.arcs[k] == [] && out.psi[k] == None {
      assert k !in {};
    }
  }

  lemma RowsTouch(t: SSFST, s: Second, out: SSFST, out': SSFST, bigs: seq<BigState>, visited: set<nat>, i: nat)
    requires t.Valid() && s.Valid() && RowsOk(t, s, out, bigs, visited, {i}) && i < |bigs| && i !in visited
    requires |out'.arcs| == |out.arcs| && |out'.psi| == |out.psi|
    requires forall j :: 0 <= j < |bigs| && j != i ==> out'.arcs[j] == out.arcs[j] && out'.psi[j] == out.psi[j]
    ensures RowsOk(t, s, out', bigs, visited, {i})
  {
    hide RowOk;
    forall j: nat | j in visited ensures j < |bigs| && RowOk(t, s, out', bigs, j) {
      RowStays(t, s, out, out', bigs, bigs, j);
    }
  }

  /** Product state i is being written: its first n arcs are followed. */
  ghost predicate Visiting(t: SSFST, s: Second, out: SSFST, bigs: seq<BigState>, stateRemap: map<BigState, nat>, visited: set<nat>, queue: seq<BigState>, i: nat, n: nat)
    requires t.Valid() && s.Valid()
  {
    && Numbered(t, s, bigs, stateRemap) && RowsOk(t, s, out, bigs, visited, {i})
    && i < |bigs| && i !in visited && out.psi[i] == PsiOf(t, s, bigs[i])
    && n <= |t.arcs[bigs[i].0]| && RowUpTo(t, s, out.arcs[i], bigs, i, n)
    && Waiting(bigs, visited + {i}, queue) && QueueOk(t, s, queue)
  }

  /** Follows one arc of the first component, if the second one can read its output. */
  method FollowArc(t: SSFST, s: Second, out: ComposedFst, i: nat, j: nat, bigs0: seq<BigState>, stateRemap0: map<BigState, nat>, visited: set<nat>, queue0: seq<BigState>)
    returns (bigs: seq<BigState>, stateRemap: map<BigState, nat>, queue: seq<BigState>)
    requires t.Valid() && s.Valid() && i in visited
    requires Visiting(t, s, out.Value(), bigs0, stateRemap0, visited - {i}, queue0, i, j) && j < |t.arcs[bigs0[i].0]|
    requires AllMet(t, s, bigs0) && AllMet(t, s, queue0)
    modifies out
    ensures Visiting(t, s, out.Value(), bigs, stateRemap, visited - {i}, queue, i, j + 1)
    ensures AllMet(t, s, bigs) && AllMet(t, s, queue)
    ensures bigs0 <= bigs && out.initialOut == old(out.initialOut)
  {
    hide RowOk, RowUpTo, Comes, Drive, Waiting, QueueOk, PsiOf, Met, AllMet;
    bigs, stateRemap, queue := bigs0, stateRemap0, queue0;
    ghost var others := visited - {i};
    var (s1, s2) := bigs[i];
    var a := t.arcs[s1][j];
    assert a in t.arcs[s1];
    var res := DriveSecond(s, s2, a.out);
    if res.None? {
      RowSkips(t, s, out.arcs[i], bigs, i, j);
      return;
    }
    var (outVal, next2) := res.value;
    var nextState := (a.to, next2);
    ghost var row := out.arcs[i];
    var nextId;
    bigs, stateRemap, nextId := StateId(t, s, out, nextState, bigs, stateRemap, others, {i});
    MetAt(t, s, bigs0, i);
    NextIsMet(t, s, (s1, s2), a, nextState);
    MetSnoc(t, s, bigs0, nextState);
    MetSnoc(t, s, queue, nextState);
    ComesStays(t, s, row, bigs0, bigs, i, j);
    ghost var before := out.Value();
    out.AddTransition(i, a.sym, outVal, nextId);
    ImageComes(t, s, bigs[i], a, Arc(a.sym, outVal, nextId), nextState);
    RowGrows(t, s, row, bigs, i, j, Arc(a.sym, outVal, nextId));
    RowsTouch(t, s, before, out.Value(), bigs, others, i);
    assert others + {i} == visited;
    WaitingNumbered(bigs0, bigs, visited, queue, nextState, nextId);
    if nextId !in visited {
      QueueMore(t, s, queue, nextState);
      queue := queue + [nextState];
    }
  }

  /** Visits product state i: its final output, and an arc for each arc of the first component that the second can follow. */
  method Visit(t: SSFST, s: Second, out: ComposedFst, i: nat, bigs0: seq<BigState>, stateRemap0: map<BigState, nat>, visited0: set<nat>, queue0: seq<BigState>)
    returns (bigs: seq<BigState>, stateRemap: map<BigState, nat>, visited: set<nat>, queue: seq<BigState>)
    requires t.Valid() && s.Valid() && AllMet(t, s, bigs0) && AllMet(t, s, queue0)
    requires Numbered(t, s, bigs0, stateRemap0) && RowsOk(t, s, out.Value(), bigs0, visited0, {})
    requires i < |bigs0| && i !in visited0 && Waiting(bigs0, visited0, [bigs0[i]] + queue0) && QueueOk(t, s, queue0)
    requires BigOk(t, s, bigs0[i]) && t.psi[bigs0[i].0].Some?
    modifies out
    ensures Numbered(t, s, bigs, stateRemap) && RowsOk(t, s, out.Value(), bigs, visited, {})
    ensures bigs0 <= bigs && visited == visited0 + {i} && Waiting(bigs, visited, queue) && QueueOk(t, s, queue)
    ensures AllMet(t, s, bigs) && AllMet(t, s, queue)
    ensures out.initialOut == old(out.initialOut)
  {
    hide RowOk, RowUpTo, Comes, Drive, Waiting, QueueOk, Met, AllMet;
    bigs, stateRemap, queue := bigs0, stateRemap0, queue0;
    visited := visited0 + {i};
    var (s1, s2) := bigs[i];
    ghost var was := out.Value();
    RowsOpen(t, s, was, bigs, visited0, i);
    RowBegins(t, s, out.arcs[i], bigs, i);
    WaitingVisited(bigs, visited0, queue, i);
    var res := DriveSecond(s, s2, t.psi[s1].value);
    if res.Some? {
      var (midOut, s2final) := res.value;
      out.SetPsi(i, midOut + s.psi[s2final]);
    }
    RowsTouch(t, s, was, out.Value(), bigs, visited0, i);
    assert visited - {i} == visited0;
    assert Visiting(t, s, out.Value(), bigs, stateRemap, visited0, queue, i, 0);
    hide Visiting;
    VisitingFacts(t, s, out.Value(), bigs, stateRemap, visited0, queue, i, 0);
    for j := 0 to |t.arcs[s1]|
      invariant Visiting(t, s, out.Value(), bigs, stateRemap, visited0, queue, i, j)
      invariant i < |bigs| && bigs0 <= bigs && bigs[i] == (s1, s2) && out.initialOut == old(out.initialOut)
      invariant AllMet(t, s, bigs) && AllMet(t, s, queue)
    {
      bigs, stateRemap, queue := FollowArc(t, s, out, i, j, bigs, stateRemap, visited, queue);
    }
    VisitingFacts(t, s, out.Value(), bigs, stateRemap, visited0, queue, i, |t.arcs[s1]|);
    RowsClosed(t, s, out.Value(), bigs, visited0, i);
  }

  lemma VisitingFacts(t: SSFST, s: Second, out: SSFST, bigs: seq<BigState>, stateRemap: map<BigState, nat>, visited: set<nat>, queue: seq<BigState>, i: nat, n: nat)
    requires t.Valid() && s.Valid() && Visiting(t, s, out, bigs, stateRemap, visited, queue, i, n)
    ensures Numbered(t, s, bigs, stateRemap) && RowsOk(t, s, out, bigs, visited, {i})
    ensures i < |bigs| && out.psi[i] == PsiOf(t, s, bigs[i])
    ensures n <= |t.arcs[bigs[i].0]| && RowUpTo(t, s, out.arcs[i], bigs, i, n)
    ensures Waiting(bigs, visited + {i}, queue) && QueueOk(t, s, queue)
  {
  }

  lemma ImageComes(t: SSFST, s: Second, b: BigState, a: Arc, c: Arc, to: BigState)
    requires t.Valid() && s.Valid() && BigOk(t, s, b) && a in t.arcs[b.0] && c.sym == a.sym
    requires Drive(s, b.1, a.out).Some? && c.out == s.initialOut + Drive(s, b.1, a.out).value.0 && to == (a.to, Drive(s, b.1, a.out).value.1)
    ensures Comes(t, s, b, a, c, to)
  {
  }

  lemma WaitingVisited(bigs: seq<BigState>, visited: set<nat>, queue: seq<BigState>, i: nat)
    requires i < |bigs| && Waiting(bigs, visited, [bigs[i]] + queue) && forall j :: 0 <= j < |bigs| && bigs[j] == bigs[i] ==> j == i
    ensures Waiting(bigs, visited + {i}, queue)
  {
    forall j: nat | j < |bigs| ensures j in visited + {i} || bigs[j] in queue {
      assert j in visited || bigs[j] in [bigs[i]] + queue;
    }
  }

  lemma WaitingNumbered(bigs: seq<BigState>, more: seq<BigState>, visited: set<nat>, queue: seq<BigState>, b: BigState, id: nat)
    requires Waiting(bigs, visited, queue) && id < |more| && more[id] == b
    requires more == bigs || (more == bigs + [b] && id == |bigs|)
    ensures Waiting(more, visited, if id in visited then queue else queue + [b])
  {
    var queue' := if id in visited then queue else queue + [b];
    assert id !in visited ==> queue'[|queue|] == b;
    forall j: nat | j < |more| ensures j in visited || more[j] in queue' {
      if j < |bigs| {
        assert more[j] == bigs[j];
      }
    }
  }

  lemma QueueMore(t: SSFST, s: Second, queue: seq<BigState>, b: BigState)
    requires QueueOk(t, s, queue) && BigOk(t, s, b)
    ensures QueueOk(t, s, queue + [b])
  {
  }

  lemma RowsClosed(t: SSFST, s: Second, out: SSFST, bigs: seq<BigState>, visited: set<nat>, i: nat)
    requires t.Valid() && s.Valid() && RowsOk(t, s, out, bigs, visited, {i}) && i < |bigs|
    requires out.psi[i] == PsiOf(t, s, bigs[i]) && RowUpTo(t, s, out.arcs[i], bigs, i, |t.arcs[bigs[i].0]|)
    ensures RowsOk(t, s, out, bigs, visited + {i}, {})
  {
    hide RowUpTo, PsiOf, BigOk, Drive;
    assert RowOk(t, s, out, bigs, i);
    forall k: nat | k in visited + {i} ensures k < |bigs| && RowOk(t, s, out, bigs, k) {
      if k != i {
        assert k in visited;
      }
    }
    forall k: nat | k < |bigs| && k !in visited + {i} ensures out.arcs[k] == [] && out.psi[k] == None {
      assert k !in visited && k !in {i};
    }
    hide RowOk;
  }

  // ---------- the whole construction ----------

  ghost function AllPairs(t: SSFST, s: Second): set<BigState> {
    set p, q | 0 <= p < t.Size() && 0 <= q < |s.step| :: (p, q)
  }

  lemma FewVisited(t: SSFST, s: Second, bigs: seq<BigState>, stateRemap: map<BigState, nat>, visited: set<nat>, queue: seq<BigState>)
    requires Numbered(t, s, bigs, stateRemap) && Waiting(bigs, visited, queue)
    ensures |visited| <= |AllPairs(t, s)|
  {
    forall b | b in stateRemap.Keys ensures b in AllPairs(t, s) {
      assert b in stateRemap;
    }
    SubsetSize(stateRemap.Keys, AllPairs(t, s));
    BelowSize(|bigs|);
    SubsetSize(visited, Below(|bigs|));
  }

  /** Fails where a pair is met whose first component has no final output: asking for it is an error. */
  method ComposeFst(t: SSFST, s: Second) returns (out: ComposedFst, ok: bool, ghost bigs: seq<BigState>)
    requires t.Valid() && s.Valid() && t.Size() > 0
    ensures fresh(out)
    ensures ok <==> !MeetsNonFinal(t, s)
    ensures ok ==> Product(t, s, out.Value(), bigs)
  {
    hide RowOk, RowsOk, Numbered, Product, Drive, Waiting, QueueOk, AllPairs, Met, AllMet, MeetsNonFinal, VisitedFinal;
    out := new ComposedFst();
    ok := true;
    var known: seq<BigState>, stateRemap: map<BigState, nat>, visited: set<nat> := [], map[], {};
    NothingNumbered(t, s, out.Value());
    var res := DriveSecond(s, 0, t.initialOut);
    if res.None? {
      var known', remap', id := StateId(t, s, out, (0, 0), known, stateRemap, {}, {});
      OnlyStart(t, s, out.Value(), known');
      NothingMet(t, s);
      return out, true, known';
    }
    var (initOut, s2) := res.value;
    out.SetInitialOutput(initOut);
    NothingNumbered(t, s, out.Value());
    var start: BigState := (0, s2);
    var queue := [start];
    StartQueue(t, s, start);
    StartMet(t, s);
    NoneVisited(t);
    while queue != []
      invariant fresh(out) && out.initialOut == initOut && ok
      invariant Numbered(t, s, known, stateRemap) && RowsOk(t, s, out.Value(), known, visited, {})
      invariant Waiting(known, visited, queue) && QueueOk(t, s, queue)
      invariant AllMet(t, s, known) && AllMet(t, s, queue) && VisitedFinal(t, known, visited)
      invariant if known == [] then queue == [start] && visited == {} else known[0] == start
      decreases |AllPairs(t, s)| - |visited|, |queue|
    {
      FewVisited(t, s, known, stateRemap, visited, queue);
      var current := queue[0];
      assert queue == [current] + queue[1..];
      MetTail(t, s, queue);
      queue := queue[1..];
      QueueLess(t, s, current, queue);
      ghost var known0 := known;
      var id;
      known, stateRemap, id := StateId(t, s, out, current, known, stateRemap, visited, {});
      MetSnoc(t, s, known0, current);
      NumberedDistinct(t, s, known, stateRemap);
      WaitingId(known0, known, visited, current, queue, id);
      FinalStays(t, known0, known, visited);
      if id in visited {
        continue;
      }
      if t.psi[current.0].None? {
        NonFinalMet(t, s, current);
        return out, false, known;
      }
      ghost var visited0, known1 := visited, known;
      known, stateRemap, visited, queue := Visit(t, s, out, id, known, stateRemap, visited, queue);
      FinalStays(t, known1, known, visited0);
      FinalMore(t, known, visited0, id);
      assert |visited| == |visited0| + 1;
      FewVisited(t, s, known, stateRemap, visited, queue);
    }
    bigs := known;
    AllVisited(t, s, out.Value(), known, stateRemap, visited, queue);
    AllFinal(t, s, out.Value(), known, visited);
  }

  predicate VisitedFinal(t: SSFST, known: seq<BigState>, visited: set<nat>) {
    forall i: nat {:trigger i in visited} :: i in visited ==> i < |known| && known[i].0 < |t.psi| && t.psi[known[i].0].Some?
  }

  lemma FinalStays(t: SSFST, known: seq<BigState>, more: seq<BigState>, visited: set<nat>)
    requires VisitedFinal(t, known, visited) && known <= more
    ensures VisitedFinal(t, more, visited)
  {
  }

  lemma FinalMore(t: SSFST, known: seq<BigState>, visited: set<nat>, i: nat)
    requires VisitedFinal(t, known, visited) && i < |known| && known[i].0 < |t.psi| && t.psi[known[i].0].Some?
    ensures VisitedFinal(t, known, visited + {i})
  {
  }

  lemma NoneVisited(t: SSFST)
    ensures VisitedFinal(t, [], {})
  {
  }

  lemma StartMet(t: SSFST, s: Second)
    requires t.Valid() && s.Valid() && Drive(s, 0, t.initialOut).Some?
    ensures AllMet(t, s, []) && AllMet(t, s, [Start(t, s)])
  {
    hide Drive, Met;
    StartIsMet(t, s);
  }

  lemma NothingMet(t: SSFST, s: Second)
    requires t.Valid() && s.Valid() && Drive(s, 0, t.initialOut).None?
    ensures !MeetsNonFinal(t, s)
  {
    hide Drive;
    forall b, n: nat ensures !MetAfter(t, s, b, n) {
      NothingMetAfter(t, s, b, n);
    }
  }

  lemma {:induction false} NothingMetAfter(t: SSFST, s: Second, b: BigState, n: nat)
    requires t.Valid() && s.Valid() && Drive(s, 0, t.initialOut).None?
    ensures !MetAfter(t, s, b, n)
    decreases n
  {
    hide Drive;
    if n > 0 && MetAfter(t, s, b, n) {
      var c, a :| MetAfter(t, s, c, n - 1) && Follows(t, s, c, a, b);
      NothingMetAfter(t, s, c, n - 1);
      assert false;
    }
  }

  lemma NonFinalMet(t: SSFST, s: Second, b: BigState)
    requires t.Valid() && s.Valid() && Met(t, s, b) && b.0 < t.Size() && t.psi[b.0].None?
    ensures MeetsNonFinal(t, s)
  {
    hide Met;
  }

  lemma AllFinal(t: SSFST, s: Second, out: SSFST, bigs: seq<BigState>, visited: set<nat>)
    requires t.Valid() && s.Valid() && t.Size() > 0 && Product(t, s, out, bigs) && VisitedFinal(t, bigs, visited) && Waiting(bigs, visited, [])
    ensures !MeetsNonFinal(t, s)
  {
    hide Drive, Product, MetAfter;
    forall i: nat | i < |bigs| ensures bigs[i].0 < |t.psi| && t.psi[bigs[i].0].Some? {
      var b := bigs[i];
      assert i in visited;
    }
    if b: BigState :| Met(t, s, b) && b.0 < t.Size() && t.psi[b.0].None? {
      var n: nat :| MetAfter(t, s, b, n);
      var i := MetIsKnown(t, s, out, bigs, b, n);
      assert false;
    }
  }

  lemma NothingNumbered(t: SSFST, s: Second, out: SSFST)
    requires t.Valid() && s.Valid() && out.arcs == [] && out.psi == []
    ensures Numbered(t, s, [], map[]) && RowsOk(t, s, out, [], {}, {})
  {
  }

  lemma NumberedDistinct(t: SSFST, s: Second, bigs: seq<BigState>, stateRemap: map<BigState, nat>)
    requires Numbered(t, s, bigs, stateRemap)
    ensures forall i, j :: 0 <= i < j < |bigs| ==> bigs[i] != bigs[j]
  {
  }

  lemma OnlyStart(t: SSFST, s: Second, out: SSFST, bigs: seq<BigState>)
    requires t.Valid() && s.Valid() && t.Size() > 0 && RowsOk(t, s, out, bigs, {}, {}) && |bigs| == 1
    requires Drive(s, 0, t.initialOut).None?
    ensures Product(t, s, out, bigs)
  {
    hide Drive, RowOk;
    var v := out.arcs[0];
    assert out.arcs == [[]] && out.psi == [None];
  }

  lemma StartQueue(t: SSFST, s: Second, start: BigState)
    requires BigOk(t, s, start)
    ensures Waiting([], {}, [start]) && QueueOk(t, s, [start])
  {
  }

  lemma QueueLess(t: SSFST, s: Second, b: BigState, queue: seq<BigState>)
    requires QueueOk(t, s, [b] + queue)
    ensures BigOk(t, s, b) && QueueOk(t, s, queue)
  {
    var all := [b] + queue;
    assert all[0] == b && b in all;
    forall c | c in queue ensures BigOk(t, s, c) {
      var i :| 0 <= i < |queue| && queue[i] == c;
      assert all[i + 1] == c && c in all;
    }
  }

  lemma WaitingId(known: seq<BigState>, more: seq<BigState>, visited: set<nat>, current: BigState, queue: seq<BigState>, id: nat)
    requires Waiting(known, visited, [current] + queue) && id < |more| && more[id] == current
    requires more == known || (more == known + [current] && id == |known|)
    requires forall i, j :: 0 <= i < j < |more| ==> more[i] != more[j]
    ensures Waiting(more, visited, [current] + queue)
    ensures id in visited ==> Waiting(more, visited, queue)
  {
    var all := [current] + queue;
    assert all[0] == current;
    forall j: nat | j < |more| ensures j in visited || more[j] in all {
      if j < |known| {
        assert more[j] == known[j];
      }
    }
    forall j: nat | j < |more| && id in visited ensures j in visited || more[j] in queue {
      if j !in visited {
        assert more[j] in all && more[j] != current;
      }
    }
  }

  lemma AllVisited(t: SSFST, s: Second, out: SSFST, bigs: seq<BigState>, stateRemap: map<BigState, nat>, visited: set<nat>, queue: seq<BigState>)
    requires t.Valid() && s.Valid() && t.Size() > 0 && Numbered(t, s, bigs, stateRemap) && RowsOk(t, s, out, bigs, visited, {})
    requires Waiting(bigs, visited, queue) && queue == [] && bigs != []
    requires Drive(s, 0, t.initialOut).Some? && bigs[0] == (0, Drive(s, 0, t.initialOut).value.1)
    requires out.initialOut == s.initialOut + Drive(s, 0, t.initialOut).value.0
    ensures Product(t, s, out, bigs)
  {
    hide Drive, RowOk;
    forall i: nat | i < |bigs| ensures i in visited {
      var b := bigs[i];
    }
    forall i: nat | i < |bigs| ensures BigOk(t, s, bigs[i]) && RowOk(t, s, out, bigs, i) {
      var v := i in visited;
    }
    forall i: nat, a | i < |bigs| && a in out.arcs[i] ensures a.to < |bigs| {
      RowTargets(t, s, out, bigs, i);
    }
  }

  lemma RowTargets(t: SSFST, s: Second, out: SSFST, bigs: seq<BigState>, i: nat)
    requires t.Valid() && s.Valid() && |out.arcs| == |out.psi| == |bigs| && i < |bigs| && BigOk(t, s, bigs[i]) && RowOk(t, s, out, bigs, i)
    ensures forall c :: c in out.arcs[i] ==> c.to < |bigs|
  {
    hide Comes, HasImage;
  }
}
