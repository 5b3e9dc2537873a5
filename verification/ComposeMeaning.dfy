/** What the product computes: the composition, when the second initial output is empty. */
module ComposeMeaning {
  import opened Words
  import opened Subsequential
  import opened Compose

  /** From states p and q: the first transducer maps u to some word that the second one maps to v. */
  ghost predicate Through(t: SSFST, s: Second, p: nat, q: nat, u: Word, v: Word)
    requires t.Valid() && s.Valid() && p < t.Size() && q < |s.step|
  {
    exists mid {:trigger Rel(t, p, u, mid)} :: Rel(t, p, u, mid) && Ending(s, q, mid) == Some(v)
  }

  /** The relation of the first transducer followed by the relation of the second. */
  ghost predicate Composed(t: SSFST, s: Second, u: Word, v: Word)
    requires t.Valid() && s.Valid()
  {
    exists mid {:trigger Translates(t, u, mid)} :: Translates(t, u, mid) && Translates(AsSsfst(s), mid, v)
  }

  lemma SecondTranslates(s: Second, mid: Word, v: Word)
    requires s.Valid()
    ensures Translates(AsSsfst(s), mid, v) <==> Ending(s, 0, mid).Some? && v == s.initialOut + Ending(s, 0, mid).value
  {
    hide Rel, Ending;
    var i := s.initialOut;
    if i <= v {
      EndingIsRelation(s, 0, mid, v[|i|..]);
      assert v == i + v[|i|..];
    }
    if Ending(s, 0, mid).Some? {
      assert (i + Ending(s, 0, mid).value)[|i|..] == Ending(s, 0, mid).value;
    }
  }

  /** From states p and q, one run of the first transducer on u, each of its pieces read by the second: v is what
      the second writes, and v' is v with the second initial output written before each piece, the final one included. */
  ghost predicate Woven(t: SSFST, s: Second, p: nat, q: nat, u: Word, v: Word, v': Word)
    requires t.Valid() && s.Valid() && p < t.Size() && q < |s.step|
    decreases u
  {
    if u == [] then
      && t.psi[p].Some? && Drive(s, q, t.psi[p].value).Some?
      && var (o, f) := Drive(s, q, t.psi[p].value).value;
      && v == o + s.psi[f] && v' == s.initialOut + o + s.psi[f]
    else
      exists a, rest, rest' :: a in t.arcs[p] && a.sym == u[0] && Drive(s, q, a.out).Some?
        && Woven(t, s, a.to, Drive(s, q, a.out).value.1, u[1..], rest, rest')
        && v == Drive(s, q, a.out).value.0 + rest && v' == (s.initialOut + Drive(s, q, a.out).value.0) + rest'
  }

  /** The same for the whole transducers: both write the second initial output and the image of the first one's. */
  ghost predicate WovenWhole(t: SSFST, s: Second, u: Word, v: Word, v': Word)
    requires t.Valid() && s.Valid() && t.Size() > 0
  {
    && Drive(s, 0, t.initialOut).Some?
    && var (o, p) := Drive(s, 0, t.initialOut).value;
    && exists tail, tail' {:trigger Woven(t, s, 0, p, u, tail, tail')} ::
         Woven(t, s, 0, p, u, tail, tail') && v == s.initialOut + (o + tail) && v' == (s.initialOut + o) + tail'
  }

  lemma WovenEnd(t: SSFST, s: Second, p: nat, q: nat, v: Word, v': Word)
    requires t.Valid() && s.Valid() && p < t.Size() && q < |s.step|
    ensures Woven(t, s, p, q, [], v, v') <==>
      t.psi[p].Some? && Ending(s, q, t.psi[p].value) == Some(v) && PsiOf(t, s, (p, q)) == Some(v')
  {
    hide Drive;
  }

  lemma WovenStep(t: SSFST, s: Second, p: nat, q: nat, a: Arc, u: Word, rest: Word, rest': Word)
    requires t.Valid() && s.Valid() && p < t.Size() && q < |s.step| && a in t.arcs[p] && Drive(s, q, a.out).Some?
    requires Woven(t, s, a.to, Drive(s, q, a.out).value.1, u, rest, rest')
    ensures
      var o := Drive(s, q, a.out).value.0;
      Woven(t, s, p, q, [a.sym] + u, o + rest, (s.initialOut + o) + rest')
  {
    hide Drive;
    assert ([a.sym] + u)[1..] == u;
  }

  lemma WovenFirst(t: SSFST, s: Second, p: nat, q: nat, u: Word, v: Word, v': Word) returns (a: Arc, rest: Word, rest': Word)
    requires t.Valid() && s.Valid() && p < t.Size() && q < |s.step| && u != [] && Woven(t, s, p, q, u, v, v')
    ensures a in t.arcs[p] && u == [a.sym] + u[1..] && Drive(s, q, a.out).Some?
    ensures Woven(t, s, a.to, Drive(s, q, a.out).value.1, u[1..], rest, rest')
    ensures v == Drive(s, q, a.out).value.0 + rest && v' == (s.initialOut + Drive(s, q, a.out).value.0) + rest'
  {
    hide Drive;
    a, rest, rest' :| a in t.arcs[p] && a.sym == u[0] && Drive(s, q, a.out).Some?
      && Woven(t, s, a.to, Drive(s, q, a.out).value.1, u[1..], rest, rest')
      && v == Drive(s, q, a.out).value.0 + rest && v' == (s.initialOut + Drive(s, q, a.out).value.0) + rest';
  }

  /** What is woven into is a value of the composition. */
  lemma {:induction false} WovenIsThrough(t: SSFST, s: Second, p: nat, q: nat, u: Word, v: Word, v': Word) returns (mid: Word)
    requires t.Valid() && s.Valid() && p < t.Size() && q < |s.step| && Woven(t, s, p, q, u, v, v')
    ensures Rel(t, p, u, mid) && Ending(s, q, mid) == Some(v)
    decreases u
  {
    hide Rel, Drive, Woven, Ending;
    if u == [] {
      WovenEnd(t, s, p, q, v, v');
      mid := t.psi[p].value;
      RelEnd(t, p, mid);
    } else {
      var a, rest, rest' := WovenFirst(t, s, p, q, u, v, v');
      var m := WovenIsThrough(t, s, a.to, Drive(s, q, a.out).value.1, u[1..], rest, rest');
      RelStep(t, p, a, u[1..], m);
      EndingJoin(s, q, a.out, m);
      mid := a.out + m;
    }
  }

  /** Every value of the composition is woven into. */
  lemma {:induction false} ThroughIsWoven(t: SSFST, s: Second, p: nat, q: nat, u: Word, mid: Word) returns (v': Word)
    requires t.Valid() && s.Valid() && p < t.Size() && q < |s.step| && Rel(t, p, u, mid) && Ending(s, q, mid).Some?
    ensures Woven(t, s, p, q, u, Ending(s, q, mid).value, v')
    decreases u
  {
    hide Rel, Drive, Woven, Ending;
    if u == [] {
      RelEnd(t, p, mid);
      v' := EndingPsi(t, s, p, q, mid);
      WovenEnd(t, s, p, q, Ending(s, q, mid).value, v');
    } else {
      var a, m := FirstArc(t, p, u, mid);
      EndingJoin(s, q, a.out, m);
      var d := Drive(s, q, a.out).value;
      var rest' := ThroughIsWoven(t, s, a.to, d.1, u[1..], m);
      WovenStep(t, s, p, q, a, u[1..], Ending(s, d.1, m).value, rest');
      v' := (s.initialOut + d.0) + rest';
    }
  }

  lemma EndingPsi(t: SSFST, s: Second, p: nat, q: nat, w: Word) returns (v': Word)
    requires t.Valid() && s.Valid() && p < t.Size() && q < |s.step| && t.psi[p] == Some(w) && Ending(s, q, w).Some?
    ensures PsiOf(t, s, (p, q)) == Some(v')
  {
    hide Drive;
    v' := PsiOf(t, s, (p, q)).value;
  }

  /** The letters that n + 1 further copies of a word of length k take. */
  function Extra(n: nat, k: nat): nat {
    if n == 0 then k else k + Extra(n - 1, k)
  }

  lemma ExtraSomething(n: nat, k: nat)
    requires k > 0
    ensures Extra(n, k) > 0
  {
  }

  /** One copy of the initial output for each letter and one at the end. */
  lemma {:induction false} WovenLength(t: SSFST, s: Second, p: nat, q: nat, u: Word, v: Word, v': Word)
    requires t.Valid() && s.Valid() && p < t.Size() && q < |s.step| && Woven(t, s, p, q, u, v, v')
    ensures |v'| == |v| + Extra(|u|, |s.initialOut|) && (s.initialOut == [] ==> v' == v)
    decreases u
  {
    hide Drive, Woven, Ending;
    if u == [] {
      WovenEnd(t, s, p, q, v, v');
      PsiLength(t, s, p, q, v, v');
    } else {
      var a, rest, rest' := WovenFirst(t, s, p, q, u, v, v');
      WovenLength(t, s, a.to, Drive(s, q, a.out).value.1, u[1..], rest, rest');
      if s.initialOut == [] {
        assert s.initialOut + Drive(s, q, a.out).value.0 == Drive(s, q, a.out).value.0;
      }
    }
  }

  lemma PsiLength(t: SSFST, s: Second, p: nat, q: nat, v: Word, v': Word)
    requires t.Valid() && s.Valid() && p < t.Size() && q < |s.step| && t.psi[p].Some?
    requires Ending(s, q, t.psi[p].value) == Some(v) && PsiOf(t, s, (p, q)) == Some(v')
    ensures |v'| == |v| + |s.initialOut| && (s.initialOut == [] ==> v' == v)
  {
    hide Drive;
    var o := Drive(s, q, t.psi[p].value).value.0;
    if s.initialOut == [] {
      assert s.initialOut + o == o;
    }
  }

  // ---------- facts about a finished product ----------

  lemma ProductRow(t: SSFST, s: Second, out: SSFST, bigs: seq<BigState>, i: nat)
    requires t.Valid() && s.Valid() && t.Size() > 0 && Product(t, s, out, bigs) && Drive(s, 0, t.initialOut).Some? && i < |bigs|
    ensures out.Valid() && |out.arcs| == |bigs| && BigOk(t, s, bigs[i]) && RowOk(t, s, out, bigs, i)
  {
  }

  lemma ArcDown(t: SSFST, s: Second, out: SSFST, bigs: seq<BigState>, i: nat, c: Arc) returns (a: Arc, o: Word, p: nat)
    requires t.Valid() && s.Valid() && t.Size() > 0 && Product(t, s, out, bigs) && Drive(s, 0, t.initialOut).Some? && i < |bigs|
    requires c in out.arcs[i]
    ensures BigOk(t, s, bigs[i]) && a in t.arcs[bigs[i].0] && c.sym == a.sym && c.to < |bigs| && bigs[c.to] == (a.to, p)
    ensures Drive(s, bigs[i].1, a.out) == Some((o, p)) && c.out == s.initialOut + o
  {
    hide Drive, HasImage;
    ProductRow(t, s, out, bigs, i);
    hide Product;
    a :| Comes(t, s, bigs[i], a, c, bigs[c.to]);
    o, p := Drive(s, bigs[i].1, a.out).value.0, Drive(s, bigs[i].1, a.out).value.1;
  }

  lemma ArcUp(t: SSFST, s: Second, out: SSFST, bigs: seq<BigState>, i: nat, a: Arc) returns (c: Arc)
    requires t.Valid() && s.Valid() && t.Size() > 0 && Product(t, s, out, bigs) && Drive(s, 0, t.initialOut).Some? && i < |bigs|
    requires BigOk(t, s, bigs[i]) && a in t.arcs[bigs[i].0] && Drive(s, bigs[i].1, a.out).Some?
    ensures c in out.arcs[i] && c.sym == a.sym && c.to < |bigs| && bigs[c.to] == (a.to, Drive(s, bigs[i].1, a.out).value.1)
    ensures c.out == s.initialOut + Drive(s, bigs[i].1, a.out).value.0
  {
    hide Drive;
    ProductRow(t, s, out, bigs, i);
    hide Product;
    var j :| 0 <= j < |t.arcs[bigs[i].0]| && t.arcs[bigs[i].0][j] == a;
    assert HasImage(t, s, out.arcs[i], bigs, i, a);
    c :| c in out.arcs[i] && c.to < |bigs| && Comes(t, s, bigs[i], a, c, bigs[c.to]);
  }

  // ---------- paths of the product ----------

  /** A path of the product writes what is woven from one run of the first transducer. */
  lemma {:induction false} PathDown(t: SSFST, s: Second, out: SSFST, bigs: seq<BigState>, i: nat, u: Word, v': Word) returns (v: Word)
    requires t.Valid() && s.Valid() && t.Size() > 0 && Product(t, s, out, bigs) && Drive(s, 0, t.initialOut).Some? && i < |bigs|
    requires out.Valid() && |out.arcs| == |bigs| && BigOk(t, s, bigs[i]) && Rel(out, i, u, v')
    ensures Woven(t, s, bigs[i].0, bigs[i].1, u, v, v')
    decreases u
  {
    hide Rel, Drive, Product, Woven, PsiOf;
    var (p, q) := bigs[i];
    if u == [] {
      ProductRow(t, s, out, bigs, i);
      RelEnd(out, i, v');
      v := PsiEnding(t, s, p, q, v');
      WovenEnd(t, s, p, q, v, v');
    } else {
      var c, rest' := FirstArc(out, i, u, v');
      var a, o, p' := ArcDown(t, s, out, bigs, i, c);
      ProductRow(t, s, out, bigs, c.to);
      var rest := PathDown(t, s, out, bigs, c.to, u[1..], rest');
      WovenStep(t, s, p, q, a, u[1..], rest, rest');
      v := o + rest;
    }
  }

  lemma PsiEnding(t: SSFST, s: Second, p: nat, q: nat, v': Word) returns (v: Word)
    requires t.Valid() && s.Valid() && p < t.Size() && q < |s.step| && PsiOf(t, s, (p, q)) == Some(v')
    ensures t.psi[p].Some? && Ending(s, q, t.psi[p].value) == Some(v)
  {
    hide Drive;
    v := Ending(s, q, t.psi[p].value).value;
  }

  /** Everything that is woven from a run is written by a path of the product. */
  lemma {:induction false} PathUp(t: SSFST, s: Second, out: SSFST, bigs: seq<BigState>, i: nat, u: Word, v: Word, v': Word)
    requires t.Valid() && s.Valid() && t.Size() > 0 && Product(t, s, out, bigs) && Drive(s, 0, t.initialOut).Some? && i < |bigs|
    requires BigOk(t, s, bigs[i]) && Woven(t, s, bigs[i].0, bigs[i].1, u, v, v')
    ensures out.Valid() && |out.arcs| == |bigs| && Rel(out, i, u, v')
    decreases u
  {
    hide Rel, Drive, Product, Woven, PsiOf;
    ProductRow(t, s, out, bigs, i);
    var (p, q) := bigs[i];
    if u == [] {
      WovenEnd(t, s, p, q, v, v');
      RelEnd(out, i, v');
    } else {
      var a, rest, rest' := WovenFirst(t, s, p, q, u, v, v');
      var c := ArcUp(t, s, out, bigs, i, a);
      ProductRow(t, s, out, bigs, c.to);
      PathUp(t, s, out, bigs, c.to, u[1..], rest, rest');
      RelStep(out, i, c, u[1..], rest');
    }
  }

  // ---------- the whole transducer ----------

  lemma ProductStart(t: SSFST, s: Second, out: SSFST, bigs: seq<BigState>)
    requires t.Valid() && s.Valid() && t.Size() > 0 && Product(t, s, out, bigs)
    ensures out.Valid() && |out.arcs| == |bigs| >= 1
    ensures Drive(s, 0, t.initialOut).Some? ==>
      bigs[0] == (0, Drive(s, 0, t.initialOut).value.1) && out.initialOut == s.initialOut + Drive(s, 0, t.initialOut).value.0
    ensures Drive(s, 0, t.initialOut).None? ==> out.arcs == [[]] && out.psi == [None]
  {
    hide Drive, RowOk;
  }

  /** Every translation of the product is woven from a run, and so belongs to a translation of the composition. */
  lemma TranslationDown(t: SSFST, s: Second, out: SSFST, bigs: seq<BigState>, u: Word, v': Word) returns (v: Word)
    requires t.Valid() && s.Valid() && t.Size() > 0 && Product(t, s, out, bigs) && out.Valid() && Translates(out, u, v')
    ensures WovenWhole(t, s, u, v, v') && Composed(t, s, u, v)
  {
    hide Rel, Drive, Product, Ending, Woven;
    ProductStart(t, s, out, bigs);
    var tail' := v'[|out.initialOut|..];
    if Drive(s, 0, t.initialOut).None? {
      NoRelation(out, u, tail');
      assert false;
    } else {
      var (o, p) := Drive(s, 0, t.initialOut).value;
      ProductRow(t, s, out, bigs, 0);
      var tail := PathDown(t, s, out, bigs, 0, u, tail');
      v := s.initialOut + (o + tail);
      assert v' == (s.initialOut + o) + tail';
      WovenIsComposed(t, s, u, v, v');
    }
  }

  lemma WovenIsComposed(t: SSFST, s: Second, u: Word, v: Word, v': Word)
    requires t.Valid() && s.Valid() && t.Size() > 0 && WovenWhole(t, s, u, v, v')
    ensures Composed(t, s, u, v)
  {
    hide Rel, Drive, Ending, Woven;
    var (o, p) := Drive(s, 0, t.initialOut).value;
    var tail, tail' :| Woven(t, s, 0, p, u, tail, tail') && v == s.initialOut + (o + tail) && v' == (s.initialOut + o) + tail';
    var mid := WovenIsThrough(t, s, 0, p, u, tail, tail');
    EndingJoin(s, 0, t.initialOut, mid);
    TranslatesFrom(t, u, mid);
    SecondTranslates(s, t.initialOut + mid, v);
  }

  lemma TranslatesFrom(t: SSFST, u: Word, mid: Word)
    requires t.Valid() && t.Size() > 0 && Rel(t, 0, u, mid)
    ensures Translates(t, u, t.initialOut + mid)
  {
    hide Rel;
    assert (t.initialOut + mid)[|t.initialOut|..] == mid;
  }

  lemma NoRelation(out: SSFST, u: Word, v: Word)
    requires out.Valid() && out.arcs == [[]] && out.psi == [None]
    ensures !Rel(out, 0, u, v)
  {
    hide Rel;
    if u == [] {
      RelEnd(out, 0, v);
    } else if Rel(out, 0, u, v) {
      var a, rest := FirstArc(out, 0, u, v);
      assert false;
    }
  }

  /** Every translation of the composition is woven into a translation of the product. */
  lemma TranslationUp(t: SSFST, s: Second, out: SSFST, bigs: seq<BigState>, u: Word, v: Word) returns (v': Word)
    requires t.Valid() && s.Valid() && t.Size() > 0 && Product(t, s, out, bigs) && Composed(t, s, u, v)
    ensures out.Valid() && Translates(out, u, v') && WovenWhole(t, s, u, v, v')
  {
    hide Rel, Drive, Product, Ending, Woven;
    ProductStart(t, s, out, bigs);
    var mid :| Translates(t, u, mid) && Translates(AsSsfst(s), mid, v);
    SecondTranslates(s, mid, v);
    var tail := mid[|t.initialOut|..];
    assert mid == t.initialOut + tail;
    EndingJoin(s, 0, t.initialOut, tail);
    var (o, p) := Drive(s, 0, t.initialOut).value;
    ProductRow(t, s, out, bigs, 0);
    var tail' := ThroughIsWoven(t, s, 0, p, u, tail);
    PathUp(t, s, out, bigs, 0, u, Ending(s, p, tail).value, tail');
    TranslatesFrom(out, u, tail');
    v' := out.initialOut + tail';
  }

  /** The product translates exactly what is woven from the runs of the first transducer. */
  lemma ProductIsWoven(t: SSFST, s: Second, out: SSFST, bigs: seq<BigState>, u: Word, v': Word)
    requires t.Valid() && s.Valid() && t.Size() > 0 && Product(t, s, out, bigs) && out.Valid()
    ensures Translates(out, u, v') <==> exists v {:trigger WovenWhole(t, s, u, v, v')} :: WovenWhole(t, s, u, v, v')
  {
    hide Rel, Drive, Product, Woven, Translates, WovenWhole;
    if Translates(out, u, v') {
      var v := TranslationDown(t, s, out, bigs, u, v');
    }
    if v :| WovenWhole(t, s, u, v, v') {
      WovenIsTranslated(t, s, out, bigs, u, v, v');
    }
  }

  lemma WovenIsTranslated(t: SSFST, s: Second, out: SSFST, bigs: seq<BigState>, u: Word, v: Word, v': Word)
    requires t.Valid() && s.Valid() && t.Size() > 0 && Product(t, s, out, bigs) && out.Valid() && WovenWhole(t, s, u, v, v')
    ensures Translates(out, u, v')
  {
    hide Rel, Drive, Product, Woven;
    ProductStart(t, s, out, bigs);
    var (o, p) := Drive(s, 0, t.initialOut).value;
    var tail, tail' :| Woven(t, s, 0, p, u, tail, tail') && v == s.initialOut + (o + tail) && v' == (s.initialOut + o) + tail';
    ProductRow(t, s, out, bigs, 0);
    PathUp(t, s, out, bigs, 0, u, tail, tail');
    TranslatesFrom(out, u, tail');
  }

  /** How much longer than the composition's value the product's is. */
  lemma WovenWholeLength(t: SSFST, s: Second, u: Word, v: Word, v': Word)
    requires t.Valid() && s.Valid() && t.Size() > 0 && WovenWhole(t, s, u, v, v')
    ensures |v'| == |v| + Extra(|u|, |s.initialOut|) && (s.initialOut == [] ==> v' == v)
  {
    hide Drive, Woven;
    var (o, p) := Drive(s, 0, t.initialOut).value;
    var tail, tail' :| Woven(t, s, 0, p, u, tail, tail') && v == s.initialOut + (o + tail) && v' == (s.initialOut + o) + tail';
    WovenLength(t, s, 0, p, u, tail, tail');
    assert (s.initialOut + o) + tail == s.initialOut + (o + tail);
  }

  lemma {:induction false} ShortestComposed(t: SSFST, s: Second, u: Word, v: Word) returns (best: Word)
    requires t.Valid() && s.Valid() && Composed(t, s, u, v)
    ensures Composed(t, s, u, best) && forall w {:trigger Composed(t, s, u, w)} :: Composed(t, s, u, w) ==> |best| <= |w|
    decreases |v|
  {
    hide Composed;
    if w :| Composed(t, s, u, w) && |w| < |v| {
      best := ShortestComposed(t, s, u, w);
    } else {
      best := v;
    }
  }

  ghost predicate ComputesComposition(t: SSFST, s: Second, out: SSFST)
    requires t.Valid() && s.Valid() && out.Valid()
  {
    forall u, v {:trigger Translates(out, u, v)} {:trigger Composed(t, s, u, v)} :: Translates(out, u, v) <==> Composed(t, s, u, v)
  }

  /** The product computes the composition exactly when the second initial output is empty, or nothing is translated at all. */
  lemma ComputesCompositionIff(t: SSFST, s: Second, out: SSFST, bigs: seq<BigState>)
    requires t.Valid() && s.Valid() && t.Size() > 0 && Product(t, s, out, bigs) && out.Valid()
    ensures ComputesComposition(t, s, out) <==> s.initialOut == [] || forall u, v {:trigger Composed(t, s, u, v)} :: !Composed(t, s, u, v)
  {
    hide Product, Translates, Composed, WovenWhole;
    if s.initialOut == [] {
      forall u: Word, v: Word ensures Translates(out, u, v) <==> Composed(t, s, u, v) {
        if Translates(out, u, v) {
          var w := TranslationDown(t, s, out, bigs, u, v);
          WovenWholeLength(t, s, u, w, v);
        }
        if Composed(t, s, u, v) {
          var w := TranslationUp(t, s, out, bigs, u, v);
          WovenWholeLength(t, s, u, v, w);
        }
      }
    } else if u, v :| Composed(t, s, u, v) {
      var best := ShortestComposed(t, s, u, v);
      ShortestIsMissed(t, s, out, bigs, u, best);
      assert !(Translates(out, u, best) <==> Composed(t, s, u, best));
    } else {
      forall u: Word, v: Word ensures !Translates(out, u, v) {
        if Translates(out, u, v) {
          var w := TranslationDown(t, s, out, bigs, u, v);
        }
      }
    }
  }

  /** With a second initial output, the shortest value of a word is not written. */
  lemma ShortestIsMissed(t: SSFST, s: Second, out: SSFST, bigs: seq<BigState>, u: Word, best: Word)
    requires t.Valid() && s.Valid() && t.Size() > 0 && Product(t, s, out, bigs) && out.Valid() && s.initialOut != []
    requires forall w {:trigger Composed(t, s, u, w)} :: Composed(t, s, u, w) ==> |best| <= |w|
    ensures !Translates(out, u, best)
  {
    hide Product, Translates, Composed, WovenWhole;
    if Translates(out, u, best) {
      var w := TranslationDown(t, s, out, bigs, u, best);
      WovenWholeLength(t, s, u, w, best);
      ExtraSomething(|u|, |s.initialOut|);
      assert false;
    }
  }

  // ---------- an example ----------

  /** Translates the empty word to itself. */
  const FIRST := SSFST([[]], [Some([])], [])

  /** Reads nothing and writes 5 at the start. */
  const WITH_INITIAL := Second([map[]], [[]], [5])

  /** The composition translates the empty word to 5; the product writes 5 twice. */
  lemma InitialOutputIsRepeated(out: SSFST, bigs: seq<BigState>)
    requires Product(FIRST, WITH_INITIAL, out, bigs)
    ensures out.Valid()
    ensures Composed(FIRST, WITH_INITIAL, [], [5]) && !Translates(out, [], [5]) && Translates(out, [], [5, 5])
    ensures !ComputesComposition(FIRST, WITH_INITIAL, out)
  {
    hide Product, Translates, WovenWhole;
    ExampleWoven();
    WovenIsComposed(FIRST, WITH_INITIAL, [], [5], [5, 5]);
    ProductStart(FIRST, WITH_INITIAL, out, bigs);
    WovenIsTranslated(FIRST, WITH_INITIAL, out, bigs, [], [5], [5, 5]);
    forall w | Composed(FIRST, WITH_INITIAL, [], w) ensures |w| >= |[5]| {
      var mid :| Translates(FIRST, [], mid) && Translates(AsSsfst(WITH_INITIAL), mid, w);
      SecondTranslates(WITH_INITIAL, mid, w);
    }
    ShortestIsMissed(FIRST, WITH_INITIAL, out, bigs, [], [5]);
  }

  lemma ExampleWoven()
    ensures WovenWhole(FIRST, WITH_INITIAL, [], [5], [5, 5])
  {
    var s := WITH_INITIAL;
    assert Drive(s, 0, []) == Some(([], 0));
    var e: Word := [];
    assert e + e == e && s.initialOut + e + e == [5];
    assert Woven(FIRST, s, 0, 0, [], [], [5]);
    assert [5] + (e + e) == [5] && ([5] + e) + [5] == [5, 5];
  }
}
