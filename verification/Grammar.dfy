/** Context-free grammars and derivations by rewriting. */
module Grammar {
  import opened Words

  datatype Rule = Rule(lhs: Symbol, rhs: Word)

  datatype CFG = CFG(rules: seq<Rule>, terminals: set<Symbol>, nonTerminals: set<Symbol>, start: Symbol, eof: Symbol) {
    /** What the constructor and `addRule` establish. */
    predicate Valid() {
      start in nonTerminals && eof in terminals && forall r :: r in rules ==> r.lhs in nonTerminals
    }
  }

  /** b is a with the symbol at position i replaced by the right side of r. */
  predicate Rewrites(g: CFG, a: Word, i: nat, r: Rule, b: Word) {
    i < |a| && r in g.rules && a[i] == r.lhs && b == a[..i] + r.rhs + a[i + 1..]
  }

  ghost predicate Step(g: CFG, a: Word, b: Word) {
    exists i, r :: Rewrites(g, a, i, r, b)
  }

  /** b is obtained from a by n rewriting steps. */
  ghost predicate Derives(g: CFG, a: Word, b: Word, n: nat)
    decreases n
  {
    if n == 0 then a == b else exists c :: Step(g, a, c) && Derives(g, c, b, n - 1)
  }

  ghost predicate DerivesStar(g: CFG, a: Word, b: Word) {
    exists n :: Derives(g, a, b, n)
  }

  lemma NoDerivation(g: CFG, a: Word, b: Word)
    ensures Derives(g, a, b, 0) <==> a == b
  {
  }

  lemma FirstStep(g: CFG, a: Word, b: Word, n: nat) returns (i: nat, r: Rule, c: Word)
    requires n > 0 && Derives(g, a, b, n)
    ensures Rewrites(g, a, i, r, c) && Derives(g, c, b, n - 1)
  {
    c :| Step(g, a, c) && Derives(g, c, b, n - 1);
    i, r :| Rewrites(g, a, i, r, c);
  }

  lemma StepFirst(g: CFG, a: Word, i: nat, r: Rule, c: Word, b: Word, n: nat)
    requires Rewrites(g, a, i, r, c) && Derives(g, c, b, n)
    ensures Derives(g, a, b, n + 1)
  {
    assert Step(g, a, c);
  }

  lemma RewritesInContext(g: CFG, x: Word, a: Word, i: nat, r: Rule, c: Word, y: Word)
    requires Rewrites(g, a, i, r, c)
    ensures Rewrites(g, x + a + y, |x| + i, r, x + c + y)
  {
    var s := x + a + y;
    assert s[..|x| + i] == x + a[..i] && s[|x| + i + 1..] == a[i + 1..] + y;
  }

  lemma DerivesInContext(g: CFG, x: Word, a: Word, b: Word, y: Word, n: nat)
    requires Derives(g, a, b, n)
    ensures Derives(g, x + a + y, x + b + y, n)
    decreases n
  {
    hide Rewrites, Derives;
    if n == 0 {
      NoDerivation(g, a, b);
      NoDerivation(g, x + a + y, x + b + y);
    } else {
      var i, r, c := FirstStep(g, a, b, n);
      RewritesInContext(g, x, a, i, r, c, y);
      DerivesInContext(g, x, c, b, y, n - 1);
      StepFirst(g, x + a + y, |x| + i, r, x + c + y, x + b + y, n - 1);
    }
  }

  lemma DerivesTransitive(g: CFG, a: Word, b: Word, c: Word, n: nat, m: nat)
    requires Derives(g, a, b, n) && Derives(g, b, c, m)
    ensures Derives(g, a, c, n + m)
    decreases n
  {
    hide Rewrites, Derives;
    if n == 0 {
      NoDerivation(g, a, b);
    } else {
      var i, r, d := FirstStep(g, a, b, n);
      DerivesTransitive(g, d, b, c, n - 1, m);
      StepFirst(g, a, i, r, d, c, n - 1 + m);
    }
  }

  lemma DerivesConcat(g: CFG, a: Word, b: Word, n: nat, c: Word, d: Word, m: nat)
    requires Derives(g, a, b, n) && Derives(g, c, d, m)
    ensures Derives(g, a + c, b + d, n + m)
  {
    hide Derives;
    DerivesInContext(g, [], a, b, c, n);
    DerivesInContext(g, b, c, d, [], m);
    assert [] + a + c == a + c && [] + b + c == b + c && b + c + [] == b + c && b + d + [] == b + d;
    DerivesTransitive(g, a + c, b + c, b + d, n, m);
  }

  /** A step rewrites inside one of the two halves. */
  lemma RewritesHalf(g: CFG, a: Word, b: Word, i: nat, r: Rule, c: Word)
    requires Rewrites(g, a + b, i, r, c)
    ensures i < |a| ==> exists a' :: Rewrites(g, a, i, r, a') && c == a' + b
    ensures i >= |a| ==> exists b' :: Rewrites(g, b, i - |a|, r, b') && c == a + b'
  {
    var s := a + b;
    if i < |a| {
      var a' := a[..i] + r.rhs + a[i + 1..];
      assert s[..i] == a[..i] && s[i + 1..] == a[i + 1..] + b;
      assert Rewrites(g, a, i, r, a') && c == a' + b;
    } else {
      var j := i - |a|;
      var b' := b[..j] + r.rhs + b[j + 1..];
      assert s[..i] == a + b[..j] && s[i + 1..] == b[j + 1..];
      assert Rewrites(g, b, j, r, b') && c == a + b';
    }
  }

  /** Context-freeness: what two words side by side derive, they derive separately. */
  lemma Split(g: CFG, a: Word, b: Word, d: Word, n: nat) returns (a': Word, b': Word, k: nat, m: nat)
    requires Derives(g, a + b, d, n)
    ensures d == a' + b' && k + m == n && Derives(g, a, a', k) && Derives(g, b, b', m)
    decreases n
  {
    hide Rewrites, Derives;
    if n == 0 {
      NoDerivation(g, a + b, d);
      a', b', k, m := a, b, 0, 0;
      NoDerivation(g, a, a);
      NoDerivation(g, b, b);
    } else {
      var i, r, c := FirstStep(g, a + b, d, n);
      RewritesHalf(g, a, b, i, r, c);
      if i < |a| {
        var e :| Rewrites(g, a, i, r, e) && c == e + b;
        a', b', k, m := Split(g, e, b, d, n - 1);
        StepFirst(g, a, i, r, e, a', k);
        k := k + 1;
      } else {
        var e :| Rewrites(g, b, i - |a|, r, e) && c == a + e;
        a', b', k, m := Split(g, a, e, d, n - 1);
        StepFirst(g, b, i - |a|, r, e, b', m);
        m := m + 1;
      }
    }
  }

  lemma EmptyDerives(g: CFG, b: Word, n: nat)
    requires Derives(g, [], b, n)
    ensures n == 0 && b == []
  {
    hide Derives;
    if n == 0 {
      NoDerivation(g, [], b);
    } else {
      var i, r, c := FirstStep(g, [], b, n);
      assert false;
    }
  }

  /** The first step of a derivation from one symbol applies a rule of that symbol. */
  lemma SymbolStep(g: CFG, s: Symbol, b: Word, n: nat) returns (r: Rule)
    requires n > 0 && Derives(g, [s], b, n)
    ensures r in g.rules && r.lhs == s && Derives(g, r.rhs, b, n - 1)
  {
    hide Derives;
    var i, q, c := FirstStep(g, [s], b, n);
    r := q;
    assert [s][..0] == [] && [s][1..] == [];
    assert c == [] + r.rhs + [] == r.rhs;
  }

  lemma RuleStep(g: CFG, r: Rule, b: Word, n: nat)
    requires r in g.rules && Derives(g, r.rhs, b, n)
    ensures Derives(g, [r.lhs], b, n + 1)
  {
    hide Derives;
    assert [r.lhs][..0] + r.rhs + [r.lhs][1..] == r.rhs;
    assert Rewrites(g, [r.lhs], 0, r, r.rhs);
    StepFirst(g, [r.lhs], 0, r, r.rhs, b, n);
  }

  /** A symbol without rules derives only itself. */
  lemma TerminalDerives(g: CFG, s: Symbol, b: Word, n: nat)
    requires (forall r :: r in g.rules ==> r.lhs != s) && Derives(g, [s], b, n)
    ensures n == 0 && b == [s]
  {
    hide Derives;
    if n == 0 {
      NoDerivation(g, [s], b);
    } else {
      var r := SymbolStep(g, s, b, n);
      assert false;
    }
  }

  /** A symbol that no right side mentions cannot come up. */
  lemma NeverAppears(g: CFG, s: Symbol, a: Word, b: Word, n: nat)
    requires (forall r :: r in g.rules ==> s !in r.rhs) && s !in a && Derives(g, a, b, n)
    ensures s !in b
    decreases n
  {
    hide Derives;
    if n == 0 {
      NoDerivation(g, a, b);
    } else {
      var i, r, c := FirstStep(g, a, b, n);
      NeverAppears(g, s, c, b, n - 1);
    }
  }
}
