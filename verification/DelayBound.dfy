/** The delay bound of subsequentialization is enough: a delay beyond it shows that delays grow without limit. */
module DelayBound {
  import opened Counting
  import opened Words
  import opened Expanded
  import opened Subsets

  // ---------- delays ----------

  /** What each of two words has beyond their common prefix. */
  function Delay(v: Word, w: Word): (Word, Word) {
    (v[|Gcp(v, w)|..], w[|Gcp(v, w)|..])
  }

  lemma {:induction false} GcpBehind(g: Word, v: Word, w: Word)
    ensures Gcp(g + v, g + w) == g + Gcp(v, w)
    decreases g
  {
    if g == [] {
      assert g + v == v && g + w == w;
    } else {
      assert (g + v)[1..] == g[1..] + v && (g + w)[1..] == g[1..] + w;
      GcpBehind(g[1..], v, w);
    }
  }

  /** A common front does not matter. */
  lemma DelayBehind(g: Word, v: Word, w: Word)
    ensures Delay(g + v, g + w) == Delay(v, w)
  {
    GcpBehind(g, v, w);
    var k := |Gcp(v, w)|;
    assert (g + v)[|g| + k..] == v[k..] && (g + w)[|g| + k..] == w[k..];
  }

  /** The delay after more output depends on the delay before it. */
  lemma DelayGoesOn(v: Word, w: Word, a: Word, b: Word)
    ensures Delay(v + a, w + b) == Delay(Delay(v, w).0 + a, Delay(v, w).1 + b)
  {
    var g := Gcp(v, w);
    var (x, y) := Delay(v, w);
    assert v + a == g + (x + a) && w + b == g + (y + b);
    DelayBehind(g, x + a, y + b);
  }

  lemma DelayApart(v: Word, w: Word)
    ensures var (x, y) := Delay(v, w); x == [] || y == [] || x[0] != y[0]
  {
  }

  lemma DelaySwaps(v: Word, w: Word)
    ensures Delay(w, v) == (Delay(v, w).1, Delay(v, w).0)
  {
    GcpGreatest(w, v, Gcp(v, w));
    GcpGreatest(v, w, Gcp(w, v));
    assert |Gcp(v, w)| == |Gcp(w, v)|;
  }

  function Power(a: Word, k: nat): Word {
    if k == 0 then [] else a + Power(a, k - 1)
  }

  lemma {:induction false} PowerFacts(a: Word, k: nat)
    ensures |Power(a, k)| == k * |a| && Power(a, k) <= Power(a, k + 1)
  {
    if k > 0 {
      PowerFacts(a, k - 1);
      PrefixCancel(a, Power(a, k - 1), Power(a, k));
    }
  }

  // ---------- delays under a loop ----------

  ghost predicate Within(x: (Word, Word), limit: nat) {
    |x.0| <= limit && |x.1| <= limit
  }

  /** However often a and b are written, the delay stays below the limit. */
  ghost predicate Tame(x: Word, y: Word, a: Word, b: Word, limit: nat) {
    forall k: nat {:trigger Power(a, k)} :: Within(Delay(x + Power(a, k), y + Power(b, k)), limit)
  }

  lemma DelayLengths(v: Word, w: Word)
    ensures |Delay(v, w).0| == |v| - |Gcp(v, w)| && |Delay(v, w).1| == |w| - |Gcp(v, w)|
  {
  }

  /** Loops that write words of different lengths drive the delay up. */
  lemma TameSameLength(x: Word, y: Word, a: Word, b: Word, limit: nat)
    requires Tame(x, y, a, b, limit)
    ensures |a| == |b|
  {
    hide Delay;
    var k := |x| + |y| + limit + 1;
    PowerFacts(a, k);
    PowerFacts(b, k);
    DelayLengths(x + Power(a, k), y + Power(b, k));
    assert Within(Delay(x + Power(a, k), y + Power(b, k)), limit);
    if |a| < |b| {
      Scaled(|a|, |b|, k);
    } else if |b| < |a| {
      Scaled(|b|, |a|, k);
    }
  }

  /** Words that have parted drift on with every loop. */
  lemma TamePartedWritesNothing(x: Word, y: Word, a: Word, b: Word, limit: nat)
    requires Tame(x, y, a, b, limit) && x != [] && y != [] && x[0] != y[0]
    ensures a == [] && b == []
  {
    hide Tame;
    TameSameLength(x, y, a, b, limit);
    var k := limit + 1;
    PowerFacts(a, k);
    var v, w := x + Power(a, k), y + Power(b, k);
    assert Gcp(v, w) == [] && Delay(v, w).0 == v;
    assert Within(Delay(v, w), limit) by { TameAt(x, y, a, b, limit, k); }
    if |a| > 0 {
      Scaled(0, |a|, k);
    }
  }

  lemma TameAt(x: Word, y: Word, a: Word, b: Word, limit: nat, k: nat)
    requires Tame(x, y, a, b, limit)
    ensures Within(Delay(x + Power(a, k), y + Power(b, k)), limit)
  {
    hide Within, Delay;
    var p := Power(a, k);
  }

  /** A word that is owed is passed on by the loop: the periods of both sides fit together. */
  lemma TameOwedIsPassedOn(y: Word, a: Word, b: Word, limit: nat)
    requires Tame([], y, a, b, limit) && a != []
    ensures y + b == a + y
  {
    hide Tame, Delay, Power;
    TameSameLength([], y, a, b, limit);
    var k := |y| + limit + 2;
    LongPower(a, k);
    TameAt([], y, a, b, limit, k);
    var p, q := [] + Power(a, k), y + Power(b, k);
    assert p == Power(a, k);
    DelayLengths(p, q);
    var n := |y| + |a|;
    SharedFront(p, q, n);
    FrontOfOwed(y, b, k);
    assert p[..n] == y + b;
    assert p[..|y|] == p[..n][..|y|] == y;
    FrontOfPower(a, y, k);
  }

  lemma LongPower(a: Word, k: nat)
    requires a != [] && k > 0
    ensures |Power(a, k)| >= |a| + k - 1 && |Power(a, k - 1)| >= k - 1
  {
    PowerFacts(a, k - 1);
    if k > 1 {
      Scaled(0, |a|, k - 1);
    }
  }

  lemma SharedFront(p: Word, q: Word, n: nat)
    requires n <= |Gcp(p, q)|
    ensures n <= |p| && n <= |q| && p[..n] == q[..n]
  {
    assert Gcp(p, q)[..n] == p[..n] && Gcp(p, q)[..n] == q[..n];
  }

  lemma FrontOfOwed(y: Word, b: Word, k: nat)
    requires k > 0
    ensures |y| + |b| <= |y + Power(b, k)| && (y + Power(b, k))[..|y| + |b|] == y + b
  {
  }

  lemma FrontOfPower(a: Word, y: Word, k: nat)
    requires k > 0 && |y| + |a| <= |Power(a, k)| && |y| <= |Power(a, k - 1)|
    requires Power(a, k)[..|y|] == y
    ensures Power(a, k)[..|y| + |a|] == a + y
  {
    PowerFacts(a, k - 1);
    assert Power(a, k - 1)[..|y|] == Power(a, k)[..|y|];
  }

  /** Under a tame loop the delay stays as it is. */
  lemma TameKeepsDelay(x: Word, y: Word, a: Word, b: Word, limit: nat)
    requires Tame(x, y, a, b, limit) && (x == [] || y == [] || x[0] != y[0])
    ensures Delay(x + a, y + b) == (x, y)
  {
    hide Tame, Delay;
    TameSameLength(x, y, a, b, limit);
    if a == [] {
      assert x + a == x && y + b == y;
      ApartDelay(x, y);
    } else if x == [] {
      TameOwedIsPassedOn(y, a, b, limit);
      assert x + a == a + [] && y + b == a + y;
      DelayBehind(a, [], y);
      ApartDelay([], y);
    } else if y == [] {
      TameSwaps(x, y, a, b, limit);
      TameOwedIsPassedOn(x, b, a, limit);
      assert y + b == b + [] && x + a == b + x;
      DelayBehind(b, x, []);
      ApartDelay(x, []);
    } else {
      TamePartedWritesNothing(x, y, a, b, limit);
    }
  }

  lemma ApartDelay(x: Word, y: Word)
    requires x == [] || y == [] || x[0] != y[0]
    ensures Delay(x, y) == (x, y)
  {
    assert Gcp(x, y) == [];
  }

  lemma TameSwaps(x: Word, y: Word, a: Word, b: Word, limit: nat)
    requires Tame(x, y, a, b, limit)
    ensures Tame(y, x, b, a, limit)
  {
    hide Delay;
    forall k: nat ensures Within(Delay(y + Power(b, k), x + Power(a, k)), limit) {
      DelaySwaps(x + Power(a, k), y + Power(b, k));
    }
  }

  // ---------- two runs side by side ----------

  type Pair = (nat, nat)

  /** Steps of two runs that read the same letters. */
  type Steps = seq<(Arc, Arc)>

  ghost predicate Joint(t: FST, s: Pair, ps: Steps, e: Pair)
    decreases |ps|
  {
    if ps == [] then s == e
    else
      && ps[0].0 in t.arcs && ps[0].1 in t.arcs && ps[0].0.sym == ps[0].1.sym && (ps[0].0.from, ps[0].1.from) == s
      && Joint(t, (ps[0].0.to, ps[0].1.to), ps[1..], e)
  }

  function Input(ps: Steps): Word {
    if ps == [] then [] else [ps[0].0.sym] + Input(ps[1..])
  }

  function First(ps: Steps): Word {
    if ps == [] then [] else ps[0].0.out + First(ps[1..])
  }

  function Second(ps: Steps): Word {
    if ps == [] then [] else ps[0].1.out + Second(ps[1..])
  }

  /** The pair of states after k steps. */
  function After(s: Pair, ps: Steps, k: nat): Pair
    requires k <= |ps|
  {
    if k == 0 then s else (ps[k - 1].0.to, ps[k - 1].1.to)
  }

  lemma {:induction false} OutputsJoin(a: Steps, b: Steps)
    ensures First(a + b) == First(a) + First(b) && Second(a + b) == Second(a) + Second(b)
    decreases |a|
  {
    if a == [] {
      assert a + b == b;
    } else {
      assert (a + b)[1..] == a[1..] + b;
      OutputsJoin(a[1..], b);
    }
  }

  lemma {:induction false} JointJoin(t: FST, s: Pair, a: Steps, m: Pair, b: Steps, e: Pair)
    requires Joint(t, s, a, m) && Joint(t, m, b, e)
    ensures Joint(t, s, a + b, e)
    decreases |a|
  {
    if a == [] {
      assert a + b == b;
    } else {
      assert (a + b)[1..] == a[1..] + b;
      JointJoin(t, (a[0].0.to, a[0].1.to), a[1..], m, b, e);
    }
  }

  lemma {:induction false} JointSplit(t: FST, s: Pair, ps: Steps, e: Pair, k: nat)
    requires Joint(t, s, ps, e) && k <= |ps|
    ensures Joint(t, s, ps[..k], After(s, ps, k)) && Joint(t, After(s, ps, k), ps[k..], e)
    decreases k
  {
    if k == 0 {
      assert ps[0..] == ps;
    } else {
      var s' := (ps[0].0.to, ps[0].1.to);
      JointSplit(t, s', ps[1..], e, k - 1);
      assert ps[..k][1..] == ps[1..][..k - 1] && ps[1..][k - 1..] == ps[k..];
      assert After(s', ps[1..], k - 1) == After(s, ps, k);
    }
  }

  /** The part of the steps between two positions. */
  lemma JointPart(t: FST, s: Pair, ps: Steps, e: Pair, i: nat, j: nat)
    requires Joint(t, s, ps, e) && i <= j <= |ps|
    ensures Joint(t, After(s, ps, i), ps[i..j], After(s, ps, j))
  {
    hide Joint;
    JointSplit(t, s, ps, e, j);
    JointSplit(t, s, ps[..j], After(s, ps, j), i);
    assert ps[..j][i..] == ps[i..j] && After(s, ps[..j], i) == After(s, ps, i);
  }

  function Repeat(ps: Steps, k: nat): Steps {
    if k == 0 then [] else ps + Repeat(ps, k - 1)
  }

  lemma {:induction false} LoopRepeats(t: FST, m: Pair, loop: Steps, k: nat)
    requires Joint(t, m, loop, m)
    ensures Joint(t, m, Repeat(loop, k), m)
    ensures First(Repeat(loop, k)) == Power(First(loop), k) && Second(Repeat(loop, k)) == Power(Second(loop), k)
  {
    if k > 0 {
      LoopRepeats(t, m, loop, k - 1);
      JointJoin(t, m, loop, m, Repeat(loop, k - 1), m);
      OutputsJoin(loop, Repeat(loop, k - 1));
    }
  }

  predicate Starts(t: FST, s: Pair) {
    s.0 in t.initial && s.1 in t.initial
  }

  function DelayAfter(ps: Steps): (Word, Word) {
    Delay(First(ps), Second(ps))
  }

  /** On no word, an output of one run outruns what it shares with the output of another by more than the limit. */
  ghost predicate DelaysWithin(t: FST, limit: nat) {
    forall s, ps, e {:trigger Joint(t, s, ps, e)} :: Starts(t, s) && Joint(t, s, ps, e) ==> Within(DelayAfter(ps), limit)
  }

  /** When delays are limited, a loop leaves them alone, because it can be repeated. */
  lemma LoopKeepsDelay(t: FST, limit: nat, s: Pair, pre: Steps, m: Pair, loop: Steps)
    requires DelaysWithin(t, limit) && Starts(t, s) && Joint(t, s, pre, m) && Joint(t, m, loop, m)
    ensures DelayAfter(pre + loop) == DelayAfter(pre)
  {
    hide Joint, Delay, First, Second;
    var (x, y) := DelayAfter(pre);
    var a, b := First(loop), Second(loop);
    forall k: nat ensures Within(Delay(x + Power(a, k), y + Power(b, k)), limit) {
      LoopRepeats(t, m, loop, k);
      JointJoin(t, s, pre, m, Repeat(loop, k), m);
      OutputsJoin(pre, Repeat(loop, k));
      DelayGoesOn(First(pre), Second(pre), Power(a, k), Power(b, k));
    }
    DelayApart(First(pre), Second(pre));
    TameKeepsDelay(x, y, a, b, limit);
    OutputsJoin(pre, loop);
    DelayGoesOn(First(pre), Second(pre), a, b);
  }

  /** Leaving a loop out changes nothing about the delay at the end. */
  lemma SkipLoop(t: FST, limit: nat, s: Pair, ps: Steps, e: Pair, i: nat, j: nat)
    requires DelaysWithin(t, limit) && Starts(t, s) && Joint(t, s, ps, e) && i < j <= |ps| && After(s, ps, i) == After(s, ps, j)
    ensures Joint(t, s, ps[..i] + ps[j..], e) && DelayAfter(ps[..i] + ps[j..]) == DelayAfter(ps)
  {
    hide Joint, Delay, First, Second, DelaysWithin;
    var m := After(s, ps, i);
    var pre, loop, post := ps[..i], ps[i..j], ps[j..];
    JointSplit(t, s, ps, e, i);
    JointSplit(t, s, ps, e, j);
    JointPart(t, s, ps, e, i, j);
    LoopKeepsDelay(t, limit, s, pre, m, loop);
    JointJoin(t, s, pre, m, post, e);
    assert ps == (pre + loop) + post;
    OutputsJoin(pre + loop, post);
    OutputsJoin(pre, post);
    DelayGoesOn(First(pre + loop), Second(pre + loop), First(post), Second(post));
    DelayGoesOn(First(pre), Second(pre), First(post), Second(post));
  }

  lemma AfterIsState(t: FST, s: Pair, ps: Steps, e: Pair, k: nat)
    requires t.Valid() && Starts(t, s) && Joint(t, s, ps, e) && k <= |ps|
    ensures After(s, ps, k).0 < t.n && After(s, ps, k).1 < t.n
  {
    if k > 0 {
      JointPart(t, s, ps, e, k - 1, k);
      assert ps[k - 1..k][0] == ps[k - 1];
    }
  }

  /** More steps than there are pairs of states go through some pair twice. */
  lemma SomeLoop(t: FST, s: Pair, ps: Steps, e: Pair) returns (i: nat, j: nat)
    requires t.Valid() && Starts(t, s) && Joint(t, s, ps, e) && |ps| >= t.n * t.n
    ensures i < j <= |ps| && After(s, ps, i) == After(s, ps, j)
  {
    hide Joint;
    var states := seq(|ps| + 1, k requires 0 <= k < |ps| + 1 => After(s, ps, k));
    forall x | x in states ensures x.0 < t.n && x.1 < t.n {
      var k :| 0 <= k < |states| && states[k] == x;
      AfterIsState(t, s, ps, e, k);
    }
    if NoRepeats(states) {
      FewPairs(states, t.n);
      assert false;
    }
    i, j :| 0 <= i < j < |states| && states[i] == states[j];
  }

  lemma {:induction false} OutputsLength(t: FST, s: Pair, ps: Steps, e: Pair, longest: nat)
    requires Joint(t, s, ps, e) && forall a :: a in t.arcs ==> |a.out| <= longest
    ensures |First(ps)| <= longest * |ps| && |Second(ps)| <= longest * |ps|
    decreases |ps|
  {
    if ps != [] {
      OutputsLength(t, (ps[0].0.to, ps[0].1.to), ps[1..], e, longest);
    }
  }

  /** Limited delays are those of runs that are shorter than the number of pairs of states. */
  lemma {:induction false} LimitedDelaysAreShort(t: FST, limit: nat, longest: nat, s: Pair, ps: Steps, e: Pair)
    requires t.Valid() && DelaysWithin(t, limit) && forall a :: a in t.arcs ==> |a.out| <= longest
    requires Starts(t, s) && Joint(t, s, ps, e)
    ensures Within(DelayAfter(ps), longest * t.n * t.n)
    decreases |ps|
  {
    hide Joint, Delay, DelaysWithin;
    if |ps| < t.n * t.n {
      OutputsLength(t, s, ps, e, longest);
      DelayLengths(First(ps), Second(ps));
      Product(longest, |ps|, t.n);
    } else {
      var i, j := SomeLoop(t, s, ps, e);
      SkipLoop(t, limit, s, ps, e, i, j);
      LimitedDelaysAreShort(t, limit, longest, s, ps[..i] + ps[j..], e);
    }
  }

  lemma Product(c: nat, k: nat, n: nat)
    requires k <= n * n
    ensures c * k <= c * n * n
  {
    var d: nat := n * n - k;
    assert c * n * n == c * (n * n) == c * k + c * d;
  }

  // ---------- runs on one word ----------

  lemma {:induction false} JointRuns(t: FST, s: Pair, ps: Steps, e: Pair)
    requires Joint(t, s, ps, e)
    ensures Run(t, s.0, Input(ps), First(ps), e.0) && Run(t, s.1, Input(ps), Second(ps), e.1)
    decreases |ps|
  {
    hide Run;
    if ps == [] {
      RunEmpty(t, s.0, [], e.0);
      RunEmpty(t, s.1, [], e.1);
    } else {
      JointRuns(t, (ps[0].0.to, ps[0].1.to), ps[1..], e);
      RunStep(t, ps[0].0, Input(ps[1..]), First(ps[1..]), e.0);
      RunStep(t, ps[0].1, Input(ps[1..]), Second(ps[1..]), e.1);
    }
  }

  lemma {:induction false} RunsJoint(t: FST, s: Pair, u: Word, v: Word, w: Word, e: Pair) returns (ps: Steps)
    requires Run(t, s.0, u, v, e.0) && Run(t, s.1, u, w, e.1)
    ensures Joint(t, s, ps, e) && First(ps) == v && Second(ps) == w
    decreases u
  {
    hide Run;
    if u == [] {
      RunEmpty(t, s.0, v, e.0);
      RunEmpty(t, s.1, w, e.1);
      ps := [];
    } else {
      var a, v' := FirstArcOfRun(t, s.0, u, v, e.0);
      var b, w' := FirstArcOfRun(t, s.1, u, w, e.1);
      var rest := RunsJoint(t, (a.to, b.to), u[1..], v', w', e);
      ps := [(a, b)] + rest;
      assert ps[1..] == rest;
    }
  }

  /** The longest common prefix of all outputs of a word, among the first k prefixes of one output. */
  lemma {:induction false} LcpExists(t: FST, u: Word, v: Word, q: nat, k: nat) returns (o: Word)
    requires Reachable(t, u, v, q) && k <= |v|
    requires forall c {:trigger BelowOutputs(t, u, c)} :: BelowOutputs(t, u, c) ==> |c| <= k
    ensures LcpOfOutputs(t, u, o)
    decreases k
  {
    hide Reachable;
    if BelowOutputs(t, u, v[..k]) {
      o := v[..k];
      forall c | BelowOutputs(t, u, c) ensures c <= o {
        PrefixesComparable(c, o, v);
      }
    } else {
      assert k > 0 by { NothingIsBelow(t, u); assert v[..0] == []; }
      forall c | BelowOutputs(t, u, c) ensures |c| <= k - 1 {
        if |c| == k {
          assert false;
        }
      }
      o := LcpExists(t, u, v, q, k - 1);
    }
  }

  lemma NothingIsBelow(t: FST, u: Word)
    ensures BelowOutputs(t, u, [])
  {
    hide Reachable;
  }

  /** Where one output outruns what it shares with another, it outruns what all outputs share. */
  lemma ExcessSpreads(t: FST, u: Word, v: Word, q: nat, w: Word, p: nat, limit: nat)
    requires Reachable(t, u, v, q) && Reachable(t, u, w, p) && |v| > |Gcp(v, w)| + limit
    ensures SpreadTooWide(t, limit)
  {
    forall c | BelowOutputs(t, u, c) ensures |c| <= |v| {
      assert c <= v;
    }
    assert u != [];
    var o := LcpExists(t, u, v, q, |v|);
    assert o <= v && o <= w;
    GcpGreatest(v, w, o);
  }

  /** The longest common prefix of all outputs is shared with one of them only. */
  lemma SpreadHasPair(t: FST, u: Word, o: Word, v: Word, q: nat, limit: nat) returns (w: Word, p: nat)
    requires LcpOfOutputs(t, u, o) && Reachable(t, u, v, q) && |v| > |o| + limit
    ensures Reachable(t, u, w, p) && |v| > |Gcp(v, w)| + limit
  {
    hide Reachable;
    var c := v[..|o| + 1];
    assert !BelowOutputs(t, u, c);
    w, p :| Reachable(t, u, w, p) && !(c <= w);
    if |Gcp(v, w)| > |o| {
      PrefixesComparable(c, Gcp(v, w), v);
      assert false;
    }
  }

  // ---------- the bound ----------

  lemma NoSpreadMeansWithin(t: FST, limit: nat)
    requires !SpreadTooWide(t, limit)
    ensures DelaysWithin(t, limit)
  {
    hide Joint, SpreadTooWide, Delay, Run;
    forall s, ps, e | Starts(t, s) && Joint(t, s, ps, e) ensures Within(DelayAfter(ps), limit) {
      JointRuns(t, s, ps, e);
      var v, w := First(ps), Second(ps);
      assert Reachable(t, Input(ps), v, e.0) && Reachable(t, Input(ps), w, e.1);
      DelayLengths(v, w);
      DelayLengths(w, v);
      DelaySwaps(v, w);
      if |Delay(v, w).0| > limit {
        ExcessSpreads(t, Input(ps), v, e.0, w, e.1, limit);
      }
      if |Delay(v, w).1| > limit {
        ExcessSpreads(t, Input(ps), w, e.1, v, e.0, limit);
      }
    }
  }

  lemma WithinMeansNoSpread(t: FST, limit: nat)
    requires DelaysWithin(t, limit)
    ensures !SpreadTooWide(t, limit)
  {
    hide Joint, Delay, Run, LcpOfOutputs;
    if SpreadTooWide(t, limit) {
      var u, o, v, q :| u != [] && LcpOfOutputs(t, u, o) && Reachable(t, u, v, q) && |v| > |o| + limit;
      var w, p := SpreadHasPair(t, u, o, v, q, limit);
      var i :| i in t.initial && Run(t, i, u, v, q);
      var j :| j in t.initial && Run(t, j, u, w, p);
      var ps := RunsJoint(t, (i, j), u, v, w, (q, p));
      assert Starts(t, (i, j)) && Within(DelayAfter(ps), limit);
      DelayLengths(v, w);
      assert false;
    }
  }

  /** A delay beyond C * n * n shows that there are delays beyond every limit; so giving up is right exactly then. */
  lemma BoundSuffices(t: FST, longest: nat)
    requires t.Valid() && forall a :: a in t.arcs ==> |a.out| <= longest
    ensures SpreadTooWide(t, MaxDelay(t, longest)) <==> forall limit: nat :: SpreadTooWide(t, limit)
  {
    hide Joint, Delay, SpreadTooWide;
    if limit: nat :| !SpreadTooWide(t, limit) {
      NoSpreadMeansWithin(t, limit);
      forall s, ps, e | Starts(t, s) && Joint(t, s, ps, e) ensures Within(DelayAfter(ps), MaxDelay(t, longest)) {
        LimitedDelaysAreShort(t, limit, longest, s, ps, e);
      }
      WithinMeansNoSpread(t, MaxDelay(t, longest));
    }
  }
}
