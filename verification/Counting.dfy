/** Sizes of finite sets. */
module Counting {
  lemma {:induction false} SubsetSize<T>(a: set<T>, b: set<T>)
    requires a <= b
    ensures |a| <= |b|
    decreases a
  {
    if a != {} {
      var x :| x in a;
      SubsetSize(a - {x}, b - {x});
    }
  }

  lemma Pigeons(f: seq<nat>, n: nat)
    requires forall i :: 0 <= i < |f| ==> f[i] < n
    requires forall i, j :: 0 <= i < j < |f| ==> f[i] != f[j]
    ensures |f| <= n
  {
    var image := set i | 0 <= i < |f| :: f[i];
    ImageSize(f);
    BelowSize(n);
    SubsetSize(image, Below(n));
  }

  lemma {:induction false} ImageSize(f: seq<nat>)
    requires forall i, j :: 0 <= i < j < |f| ==> f[i] != f[j]
    ensures |set i | 0 <= i < |f| :: f[i]| == |f|
    decreases f
  {
    var image := set i | 0 <= i < |f| :: f[i];
    if f != [] {
      var front := f[..|f| - 1];
      var smaller := set i | 0 <= i < |front| :: front[i];
      ImageSize(front);
      assert image == smaller + {f[|f| - 1]};
    }
  }

  function Below(n: nat): set<nat> {
    if n == 0 then {} else Below(n - 1) + {n - 1}
  }

  lemma {:induction false} BelowSize(n: nat)
    ensures |Below(n)| == n && forall k: nat :: k in Below(n) <==> k < n
  {
    if n > 0 {
      BelowSize(n - 1);
    }
  }

  ghost predicate NoRepeats(ps: seq<(nat, nat)>) {
    forall i, j :: 0 <= i < j < |ps| ==> ps[i] != ps[j]
  }

  /** Pairs of states that are listed once are at most n * n. */
  lemma FewPairs(ps: seq<(nat, nat)>, n: nat)
    requires NoRepeats(ps) && forall p :: p in ps ==> p.0 < n && p.1 < n
    ensures |ps| <= n * n
  {
    var codes: seq<nat> := seq(|ps|, i requires 0 <= i < |ps| => ps[i].0 * n + ps[i].1);
    forall i | 0 <= i < |ps| ensures codes[i] < n * n {
      assert ps[i] in ps;
      CodeBound(ps[i], n);
    }
    forall i, j | 0 <= i < j < |ps| ensures codes[i] != codes[j] {
      assert ps[i] in ps && ps[j] in ps;
      CodesDiffer(ps[i], ps[j], n);
    }
    Pigeons(codes, n * n);
  }

  lemma Scaled(a: nat, b: nat, n: nat)
    requires a < b
    ensures a * n + n <= b * n
  {
    var d: nat := b - a - 1;
    assert b * n == a * n + n + d * n;
  }

  lemma CodeBound(p: (nat, nat), n: nat)
    requires p.0 < n && p.1 < n
    ensures p.0 * n + p.1 < n * n
  {
    Scaled(p.0, n, n);
  }

  lemma CodesDiffer(p: (nat, nat), q: (nat, nat), n: nat)
    requires p != q && p.0 < n && p.1 < n && q.0 < n && q.1 < n
    ensures p.0 * n + p.1 != q.0 * n + q.1
  {
    if p.0 < q.0 {
      Scaled(p.0, q.0, n);
    } else if q.0 < p.0 {
      Scaled(q.0, p.0, n);
    }
  }
}
