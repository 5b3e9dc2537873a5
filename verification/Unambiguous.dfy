/** A word has at most one leftmost derivation in a grammar that leaves no letter a choice. */
module Unambiguous {
  import opened Words
  import opened Grammar
  import opened CfgSets
  import opened Ll1

  /** The letter that the parser sees after `matched` letters. */
  function NextLetter(g: CFG, word: Word, matched: nat): Symbol {
    if matched < |word| then word[matched] else g.eof
  }

  lemma OneRule(g: CFG, r: Rule, q: Rule, l: Symbol)
    requires OneRuleEach(g) && r in g.rules && q in g.rules && r.lhs == q.lhs && Predicts(g, r, l) && Predicts(g, q, l)
    ensures r == q
  {
    hide Predicts;
  }

  /** The first rule of a replay is predicted for the next letter. */
  lemma ReplayPredicts(g: CFG, eps: Symbol, word: Word, matched: nat, stack: Word, rs: seq<Rule>)
    requires Usable(g, eps) && g.Valid() && Letters(g, word) && Form(g, word, matched, stack)
    requires stack != [] && stack[0] !in g.terminals && matched <= |word| && Replays(g, stack, rs, word[matched..])
    ensures rs != [] && rs[0] in g.rules && rs[0].lhs == stack[0] && Predicts(g, rs[0], NextLetter(g, word, matched))
    ensures Replays(g, rs[0].rhs + stack[1..], rs[1..], word[matched..])
  {
    hide Derives, Form, StartsWith, DerivesEmpty, Follows;
    var r, rest, goal, l := rs[0], stack[1..], word[matched..], NextLetter(g, word, matched);
    assert goal != [] ==> goal[0] == l;
    assert l in g.terminals;
    ReplayDerives(g, r.rhs + rest, rs[1..], goal);
    var y, z, a, b := Split(g, r.rhs, rest, goal, |rs| - 1);
    if y != [] {
      assert y == [l] + y[1..];
      StartsWithWitness(g, r.rhs, l, y[1..], a);
    } else {
      assert z == goal;
      DerivesInContext(g, [], rest, goal, [g.eof], b);
      assert [] + rest + [g.eof] == rest + [g.eof] && [] + goal + [g.eof] == goal + [g.eof];
      assert (goal + [g.eof])[0] == l;
      assert goal + [g.eof] == [l] + (goal + [g.eof])[1..];
      FollowsInForm(g, word, matched, stack, l, (goal + [g.eof])[1..], b);
      EmptyWitness(g, r.rhs, a);
    }
  }

  lemma {:induction false} SameReplay(g: CFG, eps: Symbol, word: Word, matched: nat, stack: Word, rs: seq<Rule>, qs: seq<Rule>)
    requires Usable(g, eps) && g.Valid() && OneRuleEach(g) && Letters(g, word) && matched <= |word| && Form(g, word, matched, stack)
    requires Replays(g, stack, rs, word[matched..]) && Replays(g, stack, qs, word[matched..])
    ensures rs == qs
    decreases |rs|, |stack|
  {
    hide Form, OneRuleEach, Predicts, Derives;
    if stack == [] {
    } else if stack[0] in g.terminals {
      assert word[matched..][0] == word[matched] && word[matched..][1..] == word[matched + 1..];
      PopForm(g, word, matched, stack);
      SameReplay(g, eps, word, matched + 1, stack[1..], rs, qs);
    } else {
      ReplayPredicts(g, eps, word, matched, stack, rs);
      ReplayPredicts(g, eps, word, matched, stack, qs);
      OneRule(g, rs[0], qs[0], NextLetter(g, word, matched));
      ExpandForm(g, word, matched, stack, rs[0]);
      SameReplay(g, eps, word, matched, rs[0].rhs + stack[1..], rs[1..], qs[1..]);
      assert rs == [rs[0]] + rs[1..] && qs == [qs[0]] + qs[1..];
    }
  }

  /** Two lists of productions that both replay to a word are the same list. */
  lemma LeftmostDerivationIsUnique(g: CFG, eps: Symbol, u: Word, rs: seq<Rule>, qs: seq<Rule>)
    requires Usable(g, eps) && g.Valid() && OneRuleEach(g) && Letters(g, u)
    requires Replays(g, [g.start], rs, u) && Replays(g, [g.start], qs, u)
    ensures rs == qs
  {
    hide Form, OneRuleEach, Replays;
    StartForm(g, u);
    assert u[0..] == u;
    SameReplay(g, eps, u, 0, [g.start], rs, qs);
  }
}
