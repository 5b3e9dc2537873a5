/** What conflicts in the table do: a left-recursive grammar on which the machine fails, and a harmless double rule. */
module Conflicts {
  import opened Words
  import opened Grammar
  import opened CfgSets
  import opened Dpda
  import opened Ll1

  const EPS: nat := 9
  const S: nat := 1
  const A: nat := 2
  const EOF: nat := 0

  /** S -> S a | a. */
  const LEFT := CFG([Rule(S, [S, A]), Rule(S, [A])], {A, EOF}, {S}, S, EOF)

  /** S -> a, written twice. */
  const TWICE := CFG([Rule(S, [A]), Rule(S, [A])], {A, EOF}, {S}, S, EOF)

  const TWO_LETTERS := [A, A, EOF]

  lemma LeftUsable()
    ensures Usable(LEFT, EPS)
  {
  }

  lemma LeftDerives()
    ensures Derives(LEFT, [S, A], [A, A], 1) && Derives(LEFT, [A], [A], 0) && Derives(LEFT, [S], [A, A], 2)
  {
    hide Derives;
    var r, q := Rule(S, [S, A]), Rule(S, [A]);
    assert LEFT.rules[0] == r && LEFT.rules[1] == q && r in LEFT.rules && q in LEFT.rules;
    NoDerivation(LEFT, [A], [A]);
    RuleStep(LEFT, q, [A], 0);
    DerivesInContext(LEFT, [], [S], [A], [A], 1);
    assert [] + [S] + [A] == [S, A] && [] + [A] + [A] == [A, A];
    RuleStep(LEFT, r, [A, A], 1);
  }

  /** Both rules are predicted for the letter a. */
  lemma LeftConflicts()
    ensures !OneRuleEach(LEFT) && !IsLl1(LEFT)
  {
    hide Derives, DerivesEmpty, Follows, OneRuleEach, IsLl1;
    LeftDerives();
    var r, q := Rule(S, [S, A]), Rule(S, [A]);
    assert LEFT.rules[0] == r && LEFT.rules[1] == q && r in LEFT.rules && q in LEFT.rules;
    assert [A, A] == [A] + [A] && [A] == [A] + [];
    StartsWithWitness(LEFT, r.rhs, A, [A], 1);
    StartsWithWitness(LEFT, q.rhs, A, [], 0);
    assert Predicts(LEFT, r, A) && Predicts(LEFT, q, A);
    if OneRuleEach(LEFT) {
      TwoRules(LEFT, r, q, A);
      assert false;
    }
    if IsLl1(LEFT) {
      Ll1HasOneRuleEach(LEFT);
      assert false;
    }
  }

  lemma TwoRules(g: CFG, r: Rule, q: Rule, l: Symbol)
    requires r in g.rules && q in g.rules && r.lhs == q.lhs && r != q && Predicts(g, r, l) && Predicts(g, q, l)
    ensures !OneRuleEach(g)
  {
    hide Predicts;
  }

  lemma LeftAccepts()
    ensures Accepted(LEFT, TWO_LETTERS)
  {
    hide Derives;
    LeftDerives();
    assert TWO_LETTERS[..2] == [A, A];
  }

  function As(n: nat): Word {
    seq(n, i => A)
  }

  lemma EntryOfLeft(delta: Delta)
    requires IsTable(LEFT, EPS, delta)
    ensures TopKey(EPS, A, S) in delta
    ensures delta[TopKey(EPS, A, S)] == Move(Seen(A), [S, A]) || delta[TopKey(EPS, A, S)] == Move(Seen(A), [A])
  {
    hide Derives, Predicts;
    var q := Rule(S, [A]);
    assert LEFT.rules[1] == q && q in LEFT.rules;
    LeftPredicts();
    var k := TopKey(EPS, A, S);
    assert EntryOk(LEFT, EPS, k, delta[k]);
  }

  lemma LeftPredicts()
    ensures Predicts(LEFT, Rule(S, [A]), A)
  {
    hide Derives;
    LeftDerives();
    assert [A] == [A] + [];
    StartsWithWitness(LEFT, [A], A, [], 0);
  }

  /** The first two steps are the same for every table. */
  lemma LeftBegins(delta: Delta)
    requires IsTable(LEFT, EPS, delta)
    ensures AfterSteps(delta, EPS, TWO_LETTERS, 0) == Some(Config(Begin, [], 0))
    ensures AfterSteps(delta, EPS, TWO_LETTERS, 1) == Some(Config(Ready, [S], 0))
    ensures AfterSteps(delta, EPS, TWO_LETTERS, 2) == Some(Config(Seen(A), [S], 1))
  {
    hide IsTable, StepTo;
    LeftUsable();
    var c := Config(Begin, [], 0);
    BeginStep(LEFT, EPS, delta, TWO_LETTERS, c);
    NextAfter(delta, EPS, TWO_LETTERS, 0);
    ReadyStep(LEFT, EPS, delta, TWO_LETTERS, Config(Ready, [S], 0));
    NextAfter(delta, EPS, TWO_LETTERS, 1);
  }

  /** With the entry for S -> S a the stack grows for ever. */
  lemma {:induction false} LeftGrows(delta: Delta, n: nat)
    requires IsTable(LEFT, EPS, delta) && TopKey(EPS, A, S) in delta && delta[TopKey(EPS, A, S)] == Move(Seen(A), [S, A])
    ensures AfterSteps(delta, EPS, TWO_LETTERS, n + 2) == Some(Config(Seen(A), [S] + As(n), 1))
    decreases n
  {
    hide IsTable, StepTo, AfterSteps;
    if n == 0 {
      LeftBegins(delta);
      assert [S] + As(0) == [S];
    } else {
      LeftGrows(delta, n - 1);
      LeftUsable();
      var c := Config(Seen(A), [S] + As(n - 1), 1);
      NextAfter(delta, EPS, TWO_LETTERS, n + 1);
      SeenStep(LEFT, EPS, delta, TWO_LETTERS, c, A);
      assert c.stack[1..] == As(n - 1) && [S, A] + As(n - 1) == [S] + As(n);
    }
  }

  /** With the entry for S -> a the machine reads two letters and is stuck. */
  lemma LeftSticks(delta: Delta)
    requires IsTable(LEFT, EPS, delta) && TopKey(EPS, A, S) in delta && delta[TopKey(EPS, A, S)] == Move(Seen(A), [A])
    ensures AfterSteps(delta, EPS, TWO_LETTERS, 3) == Some(Config(Seen(A), [A], 1))
    ensures AfterSteps(delta, EPS, TWO_LETTERS, 4) == Some(Config(Ready, [], 1))
    ensures AfterSteps(delta, EPS, TWO_LETTERS, 5) == Some(Config(Seen(A), [], 2))
    ensures StepTo(delta, EPS, TWO_LETTERS, Config(Seen(A), [], 2)) == None
  {
    hide IsTable, StepTo, AfterSteps;
    LeftUsable();
    LeftBegins(delta);
    var w := TWO_LETTERS;
    SeenStep(LEFT, EPS, delta, w, Config(Seen(A), [S], 1), A);
    assert [A] + [] == [A] && [S][1..] == [] && [A][1..] == [];
    NextAfter(delta, EPS, w, 2);
    SeenStep(LEFT, EPS, delta, w, Config(Seen(A), [A], 1), A);
    NextAfter(delta, EPS, w, 3);
    ReadyStep(LEFT, EPS, delta, w, Config(Ready, [], 1));
    NextAfter(delta, EPS, w, 4);
    SeenStep(LEFT, EPS, delta, w, Config(Seen(A), [], 2), A);
  }

  /** Whichever of the two competing entries the table holds, the run goes on for ever or is stuck:
      a word of the language is never read. */
  lemma LeftRecursionFails(delta: Delta)
    requires IsTable(LEFT, EPS, delta)
    ensures Accepted(LEFT, TWO_LETTERS) && !Reads(LEFT, EPS, delta, TWO_LETTERS)
    ensures TopKey(EPS, A, S) in delta
    ensures Halts(LEFT, EPS, delta, TWO_LETTERS) <==> delta[TopKey(EPS, A, S)].w == [A]
  {
    hide IsTable, StepTo, AfterSteps, Accepted;
    LeftAccepts();
    EntryOfLeft(delta);
    LeftUsable();
    if delta[TopKey(EPS, A, S)].w == [A] {
      LeftSticks(delta);
      assert StopsAfter(LEFT, EPS, delta, TWO_LETTERS, 5);
      StopDecides(LEFT, EPS, delta, TWO_LETTERS, 5);
    } else {
      forall n: nat ensures !StopsAfter(LEFT, EPS, delta, TWO_LETTERS, n) && !ReadsAfter(LEFT, EPS, delta, TWO_LETTERS, n) {
        LeftGoesOn(delta, n);
      }
    }
  }

  lemma LeftGoesOn(delta: Delta, n: nat)
    requires IsTable(LEFT, EPS, delta) && TopKey(EPS, A, S) in delta && delta[TopKey(EPS, A, S)] == Move(Seen(A), [S, A])
    ensures !StopsAfter(LEFT, EPS, delta, TWO_LETTERS, n) && !ReadsAfter(LEFT, EPS, delta, TWO_LETTERS, n)
  {
    hide IsTable, StepTo, AfterSteps;
    LeftBegins(delta);
    NextAfter(delta, EPS, TWO_LETTERS, n) by {
      if n >= 2 { LeftGrows(delta, n - 2); }
    }
    if n >= 2 {
      LeftGrows(delta, n - 2);
      LeftGrows(delta, n - 1);
    }
  }

  // ---------- a harmless conflict ----------

  /** A rule written twice is entered twice, which is a conflict, yet no letter has a choice:
      the parser halts on every word and reads exactly the language. */
  lemma DoubleRuleIsHarmless(delta: Delta, word: Word)
    requires IsTable(TWICE, EPS, delta)
    ensures !IsLl1(TWICE) && OneRuleEach(TWICE)
    ensures Halts(TWICE, EPS, delta, word) && (Reads(TWICE, EPS, delta, word) <==> Accepted(TWICE, word))
  {
    hide Derives, DerivesEmpty, Follows, IsTable, Halts, Reads, Accepted;
    var r := Rule(S, [A]);
    assert TWICE.rules[0] == r && TWICE.rules[1] == r;
    NoDerivation(TWICE, [A], [A]);
    assert [A] == [A] + [];
    StartsWithWitness(TWICE, r.rhs, A, [], 0);
    assert Predicts(TWICE, TWICE.rules[0], A) && Predicts(TWICE, TWICE.rules[1], A);
    assert forall q :: q in TWICE.rules ==> q == r;
    ReadsLanguage(TWICE, EPS, delta, word);
  }
}
