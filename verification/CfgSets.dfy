/** NULLABLE, FIRST and FOLLOW as fixpoints, and what they mean. */
module CfgSets {
  import opened Words
  import opened Grammar

  function Symbols(g: CFG): set<Symbol> {
    g.terminals + g.nonTerminals
  }

  /** The lookups of the algorithms find every symbol of every rule. */
  predicate Declared(g: CFG) {
    g.Valid() && forall r, s :: r in g.rules && s in r.rhs ==> s in Symbols(g)
  }

  type Nullables = map<Symbol, bool>
  type SetMap = map<Symbol, set<Symbol>>

  // ---------- NULLABLE ----------

  ghost predicate DerivesEmpty(g: CFG, w: Word) {
    DerivesStar(g, w, [])
  }

  lemma EmptyWordDerivesEmpty(g: CFG)
    ensures DerivesEmpty(g, [])
  {
    NoDerivation(g, [], []);
  }

  lemma ConcatDerivesEmpty(g: CFG, a: Word, b: Word)
    ensures DerivesEmpty(g, a + b) <==> DerivesEmpty(g, a) && DerivesEmpty(g, b)
  {
    hide Derives;
    if DerivesEmpty(g, a) && DerivesEmpty(g, b) {
      var n: nat :| Derives(g, a, [], n);
      var m: nat :| Derives(g, b, [], m);
      DerivesConcat(g, a, [], n, b, [], m);
      var e: Word := [];
      assert e + e == e;
    }
    if DerivesEmpty(g, a + b) {
      var n: nat :| Derives(g, a + b, [], n);
      var x, y, k, m := Split(g, a, b, [], n);
      assert x == [] && y == [];
    }
  }

  lemma RuleDerivesEmpty(g: CFG, r: Rule)
    requires r in g.rules && DerivesEmpty(g, r.rhs)
    ensures DerivesEmpty(g, [r.lhs])
  {
    hide Derives;
    var n: nat :| Derives(g, r.rhs, [], n);
    RuleStep(g, r, [], n);
  }

  ghost predicate NullablesSound(g: CFG, res: Nullables) {
    res.Keys == Symbols(g) && forall s {:trigger res[s]} :: s in res && res[s] ==> DerivesEmpty(g, [s])
  }

  /** All symbols of w are marked. */
  predicate NullableWord(w: Word, nullable: Nullables) {
    forall s :: s in w ==> s in nullable && nullable[s]
  }

  ghost predicate NullablesClosed(g: CFG, res: Nullables) {
    forall r :: r in g.rules && NullableWord(r.rhs, res) ==> r.lhs in res && res[r.lhs]
  }

  lemma MarkedWordDerivesEmpty(g: CFG, res: Nullables, w: Word)
    requires NullablesSound(g, res) && NullableWord(w, res)
    ensures DerivesEmpty(g, w)
    decreases w
  {
    hide DerivesEmpty;
    if w == [] {
      EmptyWordDerivesEmpty(g);
    } else {
      MarkedWordDerivesEmpty(g, res, w[1..]);
      assert res[w[0]];
      ConcatDerivesEmpty(g, [w[0]], w[1..]);
      assert [w[0]] + w[1..] == w;
    }
  }

  lemma EmptyIsMarked(g: CFG, res: Nullables, w: Word, n: nat)
    requires NullablesClosed(g, res) && Derives(g, w, [], n)
    ensures NullableWord(w, res)
    decreases n, |w|
  {
    hide Derives;
    if w != [] {
      assert [w[0]] + w[1..] == w;
      var x, y, k, m := Split(g, [w[0]], w[1..], [], n);
      assert x == [] && y == [];
      if k == 0 {
        NoDerivation(g, [w[0]], []);
        assert false;
      } else {
        var r := SymbolStep(g, w[0], [], k);
        EmptyIsMarked(g, res, r.rhs, k - 1);
        EmptyIsMarked(g, res, w[1..], m);
      }
    }
  }

  /** The result is exact on symbols and on words. */
  ghost predicate NullablesExact(g: CFG, res: Nullables) {
    && res.Keys == Symbols(g)
    && (forall s {:trigger res[s]} :: s in Symbols(g) ==> (res[s] <==> DerivesEmpty(g, [s])))
    && (forall w {:trigger NullableWord(w, res)} :: NullableWord(w, res) <==> DerivesEmpty(g, w))
  }

  lemma NullablesAreExact(g: CFG, res: Nullables)
    requires NullablesSound(g, res) && NullablesClosed(g, res)
    ensures NullablesExact(g, res)
  {
    hide Derives;
    forall w ensures NullableWord(w, res) <==> DerivesEmpty(g, w) {
      if NullableWord(w, res) {
        MarkedWordDerivesEmpty(g, res, w);
      }
      if DerivesEmpty(g, w) {
        var n: nat :| Derives(g, w, [], n);
        EmptyIsMarked(g, res, w, n);
      }
    }
    forall s | s in Symbols(g) ensures res[s] <==> DerivesEmpty(g, [s]) {
      assert NullableWord([s], res) <==> DerivesEmpty(g, [s]);
      assert s in [s];
    }
  }

  ghost function Unmarked(res: Nullables): set<Symbol> {
    set s | s in res && !res[s]
  }

  method IsNullableRule(rhs: Word, res: Nullables) returns (isNullable: bool)
    requires forall s :: s in rhs ==> s in res
    ensures isNullable <==> NullableWord(rhs, res)
  {
    for i := 0 to |rhs|
      invariant forall j :: 0 <= j < i ==> res[rhs[j]]
    {
      if !res[rhs[i]] {
        return false;
      }
    }
    return true;
  }

  lemma MarkSound(g: CFG, res: Nullables, r: Rule)
    requires g.Valid() && NullablesSound(g, res) && r in g.rules && NullableWord(r.rhs, res)
    ensures NullablesSound(g, res[r.lhs := true])
  {
    hide DerivesEmpty;
    MarkedWordDerivesEmpty(g, res, r.rhs);
    RuleDerivesEmpty(g, r);
  }

  method FindNullables(g: CFG) returns (res: Nullables)
    requires Declared(g)
    ensures NullablesExact(g, res)
  {
    hide DerivesEmpty, NullablesExact, NullableWord;
    res := map s | s in Symbols(g) :: false;
    for i := 0 to |g.rules|
      invariant NullablesSound(g, res)
    {
      var r := g.rules[i];
      if r.rhs == [] {
        EmptyRuleIsNullable(r.rhs, res);
        MarkSound(g, res, r);
        res := res[r.lhs := true];
      }
    }
    var change := true;
    while change
      invariant NullablesSound(g, res)
      invariant !change ==> NullablesClosed(g, res)
      decreases Unmarked(res), change
    {
      change := false;
      ghost var start := res;
      for i := 0 to |g.rules|
        invariant NullablesSound(g, res)
        invariant if change then Unmarked(res) < Unmarked(start) else res == start
        invariant !change ==> forall j :: 0 <= j < i && NullableWord(g.rules[j].rhs, res) ==> res[g.rules[j].lhs]
      {
        var r := g.rules[i];
        assert r in g.rules;
        if !res[r.lhs] {
          var isNullable := IsNullableRule(r.rhs, res);
          if isNullable {
            MarkSound(g, res, r);
            assert r.lhs in Unmarked(res);
            res := res[r.lhs := true];
            change := true;
          }
        }
      }
      if !change {
        AllRulesClosed(g, res);
      }
    }
    NullablesAreExact(g, res);
  }

  lemma EmptyRuleIsNullable(rhs: Word, res: Nullables)
    requires rhs == []
    ensures NullableWord(rhs, res)
  {
  }

  lemma AllRulesClosed(g: CFG, res: Nullables)
    requires g.Valid() && res.Keys == Symbols(g)
    requires forall j :: 0 <= j < |g.rules| && NullableWord(g.rules[j].rhs, res) ==> res[g.rules[j].lhs]
    ensures NullablesClosed(g, res)
  {
  }

  // ---------- FIRST ----------

  /** w derives a word that starts with the terminal t. */
  ghost predicate StartsWith(g: CFG, w: Word, t: Symbol) {
    t in g.terminals && exists rest :: DerivesStar(g, w, [t] + rest)
  }

  /** FIRST of a word, from the sets of its symbols. */
  function FirstOfWord(w: Word, nullable: Nullables, first: SetMap): set<Symbol>
    requires forall s :: s in w ==> s in nullable && s in first
  {
    if w == [] then {}
    else first[w[0]] + (if nullable[w[0]] then FirstOfWord(w[1..], nullable, first) else {})
  }

  method First(w: Word, nullable: Nullables, first: SetMap) returns (res: set<Symbol>)
    requires forall s :: s in w ==> s in nullable && s in first
    ensures res == FirstOfWord(w, nullable, first)
  {
    res := {};
    var i := 0;
    while i < |w|
      invariant i <= |w| && FirstOfWord(w, nullable, first) == res + FirstOfWord(w[i..], nullable, first)
    {
      assert w[i..][1..] == w[i + 1..];
      res := res + first[w[i]];
      if !nullable[w[i]] {
        return;
      }
      i := i + 1;
    }
  }

  lemma StartsAfterEmpty(g: CFG, a: Word, b: Word, t: Symbol)
    requires DerivesEmpty(g, a) && StartsWith(g, b, t)
    ensures StartsWith(g, a + b, t)
  {
    hide Derives;
    var rest :| DerivesStar(g, b, [t] + rest);
    var n: nat :| Derives(g, a, [], n);
    var m: nat :| Derives(g, b, [t] + rest, m);
    DerivesConcat(g, a, [], n, b, [t] + rest, m);
    assert [] + ([t] + rest) == [t] + rest;
  }

  lemma StartsWithMore(g: CFG, a: Word, b: Word, t: Symbol)
    requires StartsWith(g, a, t)
    ensures StartsWith(g, a + b, t)
  {
    hide Derives;
    var rest :| DerivesStar(g, a, [t] + rest);
    var n: nat :| Derives(g, a, [t] + rest, n);
    NoDerivation(g, b, b);
    DerivesConcat(g, a, [t] + rest, n, b, b, 0);
    assert [t] + rest + b == [t] + (rest + b);
  }

  lemma RuleStartsWith(g: CFG, r: Rule, t: Symbol)
    requires r in g.rules && StartsWith(g, r.rhs, t)
    ensures StartsWith(g, [r.lhs], t)
  {
    hide Derives;
    var rest :| DerivesStar(g, r.rhs, [t] + rest);
    var n: nat :| Derives(g, r.rhs, [t] + rest, n);
    RuleStep(g, r, [t] + rest, n);
  }

  /** Which half of a word the first letter comes from. */
  lemma StartsInHalf(g: CFG, a: Word, b: Word, t: Symbol, rest: Word, n: nat) returns (n': nat, rest': Word)
    requires Derives(g, a + b, [t] + rest, n)
    ensures n' <= n
    ensures (DerivesEmpty(g, a) && Derives(g, b, [t] + rest', n')) || Derives(g, a, [t] + rest', n')
  {
    hide Derives;
    var x, y, k, m := Split(g, a, b, [t] + rest, n);
    if x == [] {
      assert y == [t] + rest;
      n', rest' := m, rest;
    } else {
      assert x[0] == (x + y)[0] && x == [t] + x[1..];
      n', rest' := k, x[1..];
    }
  }

  ghost predicate FirstsSound(g: CFG, first: SetMap) {
    && first.Keys == Symbols(g)
    && (forall t {:trigger first[t]} :: t in g.terminals ==> t in first[t])
    && (forall s, t {:trigger t in first[s]} :: s in first && t in first[s] ==> StartsWith(g, [s], t))
  }

  lemma FirstOfWordSound(g: CFG, nullable: Nullables, first: SetMap, w: Word, t: Symbol)
    requires NullablesExact(g, nullable) && FirstsSound(g, first)
    requires (forall s :: s in w ==> s in nullable && s in first) && t in FirstOfWord(w, nullable, first)
    ensures StartsWith(g, w, t)
    decreases w
  {
    hide StartsWith, DerivesEmpty, NullableWord;
    assert [w[0]] + w[1..] == w;
    if t in first[w[0]] {
      StartsWithMore(g, [w[0]], w[1..], t);
    } else {
      FirstOfWordSound(g, nullable, first, w[1..], t);
      assert nullable[w[0]];
      StartsAfterEmpty(g, [w[0]], w[1..], t);
    }
  }

  ghost predicate FirstsClosed(g: CFG, nullable: Nullables, first: SetMap)
    requires Declared(g) && nullable.Keys == first.Keys == Symbols(g)
  {
    forall r :: r in g.rules ==> FirstOfWord(r.rhs, nullable, first) <= first[r.lhs]
  }

  lemma StartIsInFirst(g: CFG, nullable: Nullables, first: SetMap, w: Word, t: Symbol, rest: Word, n: nat)
    requires Declared(g) && NullablesExact(g, nullable) && first.Keys == Symbols(g) && FirstsClosed(g, nullable, first)
    requires forall t {:trigger first[t]} :: t in g.terminals ==> t in first[t]
    requires t in g.terminals && (forall s :: s in w ==> s in Symbols(g)) && Derives(g, w, [t] + rest, n)
    ensures t in FirstOfWord(w, nullable, first)
    decreases n, |w|
  {
    hide Derives, DerivesEmpty, NullableWord, StartsWith;
    if w == [] {
      EmptyDerives(g, [t] + rest, n);
      assert false;
    } else {
      assert [w[0]] + w[1..] == w;
      var m, rest' := StartsInHalf(g, [w[0]], w[1..], t, rest, n);
      if Derives(g, [w[0]], [t] + rest', m) {
        if m == 0 {
          NoDerivation(g, [w[0]], [t] + rest');
          assert ([t] + rest')[0] == t;
          assert t in first[t];
        } else {
          var r := SymbolStep(g, w[0], [t] + rest', m);
          StartIsInFirst(g, nullable, first, r.rhs, t, rest', m - 1);
        }
      } else {
        assert nullable[w[0]];
        StartIsInFirst(g, nullable, first, w[1..], t, rest', m);
      }
    }
  }

  ghost predicate FirstsExact(g: CFG, nullable: Nullables, first: SetMap) {
    && first.Keys == nullable.Keys == Symbols(g)
    && (forall s, t {:trigger t in first[s]} :: s in Symbols(g) ==> (t in first[s] <==> StartsWith(g, [s], t)))
    && (forall w, t {:trigger StartsWith(g, w, t)} :: DeclaredWord(g, w) ==> (t in FirstOfWord(w, nullable, first) <==> StartsWith(g, w, t)))
  }

  /** The sets hold at least what they should. */
  ghost predicate FirstsCover(g: CFG, nullable: Nullables, first: SetMap) {
    && first.Keys == nullable.Keys == Symbols(g)
    && (forall w, t {:trigger StartsWith(g, w, t)} :: DeclaredWord(g, w) && StartsWith(g, w, t) ==> t in FirstOfWord(w, nullable, first))
  }

  ghost predicate DeclaredWord(g: CFG, w: Word) {
    forall s :: s in w ==> s in Symbols(g)
  }

  /** Sets closed under the rules hold every first letter, however they were found. */
  lemma ClosedFirstsCover(g: CFG, nullable: Nullables, first: SetMap)
    requires Declared(g) && NullablesExact(g, nullable) && first.Keys == Symbols(g) && FirstsClosed(g, nullable, first)
    requires forall t {:trigger first[t]} :: t in g.terminals ==> t in first[t]
    ensures FirstsCover(g, nullable, first)
  {
    hide Derives, DerivesEmpty, NullableWord, Declared, FirstsClosed;
    forall w, t | DeclaredWord(g, w) && StartsWith(g, w, t) ensures t in FirstOfWord(w, nullable, first) {
      var rest :| DerivesStar(g, w, [t] + rest);
      var n: nat :| Derives(g, w, [t] + rest, n);
      StartIsInFirst(g, nullable, first, w, t, rest, n);
    }
  }

  lemma FirstsAreExact(g: CFG, nullable: Nullables, first: SetMap)
    requires Declared(g) && NullablesExact(g, nullable) && FirstsSound(g, first) && FirstsClosed(g, nullable, first)
    ensures FirstsExact(g, nullable, first)
  {
    hide Derives, DerivesEmpty, StartsWith, NullableWord, Declared, FirstsClosed;
    ClosedFirstsCover(g, nullable, first);
    forall w, t | DeclaredWord(g, w) ensures t in FirstOfWord(w, nullable, first) <==> StartsWith(g, w, t) {
      if t in FirstOfWord(w, nullable, first) {
        FirstOfWordSound(g, nullable, first, w, t);
      }
    }
    forall s, t | s in Symbols(g) ensures t in first[s] <==> StartsWith(g, [s], t) {
      assert FirstOfWord([s], nullable, first) == first[s] + (if nullable[s] then FirstOfWord([s][1..], nullable, first) else {});
      assert [s][1..] == [] && s in [s] && DeclaredWord(g, [s]);
    }
  }

  ghost function AllEntries(g: CFG): set<(Symbol, Symbol)> {
    set s, t | s in Symbols(g) && t in g.terminals :: (s, t)
  }

  ghost function Entries(g: CFG, m: SetMap): set<(Symbol, Symbol)> {
    set s, t | s in Symbols(g) && t in g.terminals && s in m && t in m[s] :: (s, t)
  }

  /** m2 has the keys of m1 and everything m1 has. */
  ghost predicate Grows(m1: SetMap, m2: SetMap) {
    m1.Keys == m2.Keys && forall s {:trigger m2[s]} :: s in m1 ==> m1[s] <= m2[s]
  }

  lemma GrowsTransitive(a: SetMap, b: SetMap, c: SetMap)
    requires Grows(a, b) && Grows(b, c)
    ensures Grows(a, c)
  {
    forall s | s in a ensures a[s] <= c[s] {
      assert a[s] <= b[s] <= c[s];
    }
  }

  /** Every strict growth within the terminals uses up one of finitely many entries. */
  lemma GrowthUsesEntries(g: CFG, m1: SetMap, m2: SetMap)
    requires Grows(m1, m2) && m2 != m1
    requires forall s, t :: s in m2 && t in m2[s] ==> s in Symbols(g) && t in g.terminals
    ensures AllEntries(g) - Entries(g, m2) < AllEntries(g) - Entries(g, m1)
  {
    var s :| s in m2 && m2[s] != m1[s];
    var t :| t in m2[s] && t !in m1[s];
    assert (s, t) in AllEntries(g) - Entries(g, m1) && (s, t) in Entries(g, m2);
    assert Entries(g, m1) <= Entries(g, m2);
  }

  lemma StrictGrowth(a: SetMap, b: SetMap, c: SetMap)
    requires Grows(a, b) && Grows(b, c)
    ensures Grows(a, c) && (c == a ==> b == a)
  {
    GrowsTransitive(a, b, c);
    if c == a {
      forall s | s in a ensures b[s] == a[s] {
        assert a[s] <= b[s] <= c[s];
      }
    }
  }

  /** Inserts the letters of `more` one by one into the set of k; `change` tells whether one was new. */
  method Include(m0: SetMap, k: Symbol, more: set<Symbol>) returns (m: SetMap, change: bool)
    requires k in m0
    ensures m == m0[k := m0[k] + more] && Grows(m0, m) && (change <==> m != m0)
  {
    m, change := m0, false;
    var todo := more;
    while todo != {}
      invariant todo <= more && m.Keys == m0.Keys && m[k] == m0[k] + (more - todo)
      invariant forall s :: s in m && s != k ==> m[s] == m0[s]
      invariant change <==> m[k] != m0[k]
    {
      var l :| l in todo;
      if l !in m[k] {
        m, change := m[k := m[k] + {l}], true;
      }
      todo := todo - {l};
    }
    assert more - todo == more;
    ghost var all := m0[k := m0[k] + more];
    assert m.Keys == all.Keys && (forall s :: s in m ==> m[s] == all[s]) && m == all;
  }

  lemma AddSound(g: CFG, nullable: Nullables, first: SetMap, r: Rule, i: nat)
    requires Declared(g) && NullablesExact(g, nullable) && FirstsSound(g, first) && r in g.rules && i < |r.rhs|
    requires NullableWord(r.rhs[..i], nullable) && r.rhs[i] in first
    ensures FirstsSound(g, first[r.lhs := first[r.lhs] + first[r.rhs[i]]])
  {
    hide DerivesEmpty, StartsWith, NullableWord;
    var v := r.rhs;
    forall t | t in first[v[i]] ensures StartsWith(g, [r.lhs], t) {
      StartsAfterEmpty(g, v[..i], [v[i]], t);
      StartsWithMore(g, v[..i] + [v[i]], v[i + 1..], t);
      assert v[..i] + [v[i]] + v[i + 1..] == v;
      RuleStartsWith(g, r, t);
    }
  }

  lemma NullablePrefixGrows(v: Word, nullable: Nullables, i: nat)
    requires i < |v| && NullableWord(v[..i], nullable) && v[i] in nullable && nullable[v[i]]
    ensures NullableWord(v[..i + 1], nullable)
  {
    assert v[..i + 1] == v[..i] + [v[i]];
  }

  lemma FirstOfSuffix(v: Word, nullable: Nullables, first: SetMap, i: nat)
    requires i < |v| && forall s :: s in v ==> s in nullable && s in first
    ensures (forall s :: s in v[i..] ==> s in v) && forall s :: s in v[i + 1..] ==> s in v
    ensures FirstOfWord(v[i..], nullable, first) == first[v[i]] + if nullable[v[i]] then FirstOfWord(v[i + 1..], nullable, first) else {}
  {
    assert v[i..][1..] == v[i + 1..];
  }

  /** One pass over the right side of r. */
  method AddFirstsOf(g: CFG, r: Rule, nullable: Nullables, first0: SetMap) returns (first: SetMap, change: bool)
    requires Declared(g) && NullablesExact(g, nullable) && FirstsSound(g, first0) && r in g.rules
    ensures FirstsSound(g, first) && Grows(first0, first) && (change <==> first != first0)
    ensures !change ==> FirstOfWord(r.rhs, nullable, first) <= first[r.lhs]
  {
    hide DerivesEmpty, NullableWord, StartsWith, Grows;
    first, change := first0, false;
    GrowsItself(first);
    var v := r.rhs;
    EmptyRuleIsNullable([], nullable);
    assert v[0..] == v && v[..0] == [];
    if v != [] && v[0] in first {
      AddSound(g, nullable, first, r, 0);
      first, change := Include(first, r.lhs, first[v[0]]);
    }
    var i := 0;
    while i < |v|
      invariant i <= |v| && FirstsSound(g, first) && Grows(first0, first) && (change <==> first != first0)
      invariant NullableWord(v[..i], nullable)
      invariant !change && i == 0 && v != [] ==> first[v[0]] <= first[r.lhs]
      invariant !change ==> FirstOfWord(v, nullable, first) <= first[r.lhs] + FirstOfWord(v[i..], nullable, first)
    {
      ghost var before := first;
      if i > 0 {
        AddSound(g, nullable, first, r, i);
        var more;
        first, more := Include(first, r.lhs, first[v[i]]);
        StrictGrowth(first0, before, first);
        change := change || more;
      }
      FirstOfSuffix(v, nullable, first, i);
      if !nullable[v[i]] {
        return;
      }
      NullablePrefixGrows(v, nullable, i);
      i := i + 1;
    }
  }

  lemma GrowsItself(m: SetMap)
    ensures Grows(m, m)
  {
  }

  method FindFirsts(g: CFG, nullable: Nullables) returns (first: SetMap)
    requires Declared(g) && NullablesExact(g, nullable) && nullable.Keys == Symbols(g)
    ensures FirstsExact(g, nullable, first)
  {
    hide DerivesEmpty, StartsWith, NullablesExact, FirstsExact, NullableWord, Entries, AllEntries, Grows;
    first := InitialFirsts(g);
    var change := true;
    while change
      invariant FirstsSound(g, first) && nullable.Keys == Symbols(g)
      invariant !change ==> FirstsClosed(g, nullable, first)
      decreases AllEntries(g) - Entries(g, first), change
    {
      change := false;
      ghost var start := first;
      GrowsItself(first);
      for i := 0 to |g.rules|
        invariant FirstsSound(g, first) && Grows(start, first) && (change <==> first != start)
        invariant !change ==> forall j :: 0 <= j < i ==> FirstOfWord(g.rules[j].rhs, nullable, first) <= first[g.rules[j].lhs]
      {
        var r := g.rules[i];
        assert r in g.rules;
        ghost var before := first;
        var more;
        first, more := AddFirstsOf(g, r, nullable, first);
        StrictGrowth(start, before, first);
        change := change || more;
      }
      if change {
        FirstsAreTerminals(g, first);
        GrowthUsesEntries(g, start, first);
      } else {
        AllFirstsClosed(g, nullable, first);
      }
    }
    FirstsAreExact(g, nullable, first);
  }

  method InitialFirsts(g: CFG) returns (first: SetMap)
    ensures FirstsSound(g, first)
  {
    first := map s | s in Symbols(g) :: if s in g.terminals then {s} else {};
    forall s, t | s in first && t in first[s] ensures StartsWith(g, [s], t) {
      assert [t] + [] == [s];
      NoDerivation(g, [s], [t] + []);
    }
  }

  lemma FirstsAreTerminals(g: CFG, first: SetMap)
    requires FirstsSound(g, first)
    ensures forall s, t :: s in first && t in first[s] ==> s in Symbols(g) && t in g.terminals
  {
  }

  lemma AllFirstsClosed(g: CFG, nullable: Nullables, first: SetMap)
    requires Declared(g) && nullable.Keys == first.Keys == Symbols(g)
    requires forall j :: 0 <= j < |g.rules| ==> FirstOfWord(g.rules[j].rhs, nullable, first) <= first[g.rules[j].lhs]
    ensures FirstsClosed(g, nullable, first)
  {
  }

  // ---------- FOLLOW ----------

  /** x derives a word in which t comes right after a. */
  ghost predicate Adjacent(g: CFG, x: Word, a: Symbol, t: Symbol) {
    exists u, v :: DerivesStar(g, x, u + [a] + [t] + v)
  }

  ghost predicate FollowsFromStart(g: CFG, a: Symbol, t: Symbol) {
    t in g.terminals && Adjacent(g, [g.start, g.eof], a, t)
  }

  /** t comes after a in a word derived from the start symbol and eof, or from any nonterminal at all:
      the fixpoint also runs over rules that the start symbol cannot reach. */
  ghost predicate Follows(g: CFG, a: Symbol, t: Symbol) {
    t in g.terminals && (Adjacent(g, [g.start, g.eof], a, t) || exists b :: b in g.nonTerminals && Adjacent(g, [b], a, t))
  }

  ghost predicate AllReachable(g: CFG) {
    forall b :: b in g.nonTerminals ==> exists u, v :: DerivesStar(g, [g.start], u + [b] + v)
  }

  /** One of the words that Follows starts from. */
  ghost predicate IsRoot(g: CFG, x: Word) {
    x == [g.start, g.eof] || exists b :: b in g.nonTerminals && x == [b]
  }

  lemma FollowsRoot(g: CFG, a: Symbol, t: Symbol) returns (x: Word, u: Word, v: Word, n: nat)
    requires Follows(g, a, t)
    ensures IsRoot(g, x) && Derives(g, x, u + [a] + [t] + v, n)
  {
    hide Derives;
    if Adjacent(g, [g.start, g.eof], a, t) {
      x := [g.start, g.eof];
    } else {
      var b :| b in g.nonTerminals && Adjacent(g, [b], a, t);
      x := [b];
    }
    u, v :| DerivesStar(g, x, u + [a] + [t] + v);
    n :| Derives(g, x, u + [a] + [t] + v, n);
  }

  lemma RootFollows(g: CFG, x: Word, a: Symbol, t: Symbol, u: Word, v: Word, n: nat)
    requires t in g.terminals && IsRoot(g, x) && Derives(g, x, u + [a] + [t] + v, n)
    ensures Follows(g, a, t)
  {
    hide Derives;
    assert DerivesStar(g, x, u + [a] + [t] + v);
    assert Adjacent(g, x, a, t);
  }

  lemma StartIsFollowedByEof(g: CFG)
    requires g.Valid()
    ensures Follows(g, g.start, g.eof)
  {
    assert [] + [g.start] + [g.eof] + [] == [g.start, g.eof];
    NoDerivation(g, [g.start, g.eof], [] + [g.start] + [g.eof] + []);
    RootFollows(g, [g.start, g.eof], g.start, g.eof, [], [], 0);
  }

  /** The first letters of what comes after position i of a right side follow the symbol there. */
  lemma FirstFollows(g: CFG, r: Rule, i: nat, t: Symbol)
    requires g.Valid() && r in g.rules && i < |r.rhs| && StartsWith(g, r.rhs[i + 1..], t)
    ensures Follows(g, r.rhs[i], t)
  {
    hide Derives, Follows;
    var rest :| DerivesStar(g, r.rhs[i + 1..], [t] + rest);
    var n: nat :| Derives(g, r.rhs[i + 1..], [t] + rest, n);
    var u := r.rhs[..i + 1];
    DerivesInContext(g, u, r.rhs[i + 1..], [t] + rest, [], n);
    assert u + r.rhs[i + 1..] + [] == r.rhs;
    assert u + ([t] + rest) + [] == r.rhs[..i] + [r.rhs[i]] + [t] + rest;
    RuleStep(g, r, r.rhs[..i] + [r.rhs[i]] + [t] + rest, n);
    RootFollows(g, [r.lhs], r.rhs[i], t, r.rhs[..i], rest, n + 1);
  }

  /** Where the rest of a right side derives the empty word, what follows the left side follows the symbol. */
  lemma FollowPassesDown(g: CFG, r: Rule, i: nat, t: Symbol)
    requires g.Valid() && r in g.rules && i < |r.rhs| && DerivesEmpty(g, r.rhs[i + 1..]) && Follows(g, r.lhs, t)
    ensures Follows(g, r.rhs[i], t)
  {
    FollowsTerminal(g, r.lhs, t);
    hide Derives, Follows;
    var x, u, v, n := FollowsRoot(g, r.lhs, t);
    var m := TailVanishes(g, r, i);
    var head := r.rhs[..i] + [r.rhs[i]];
    DerivesInContext(g, u, [r.lhs], head, [t] + v, m);
    MoveTail(u, [r.lhs], t, v);
    DerivesTransitive(g, x, u + [r.lhs] + [t] + v, u + head + ([t] + v), n, m);
    MoveHead(u, r.rhs[..i], r.rhs[i], t, v);
    RootFollows(g, x, r.rhs[i], t, u + r.rhs[..i], v, n + m);
  }

  lemma TailVanishes(g: CFG, r: Rule, i: nat) returns (n: nat)
    requires r in g.rules && i < |r.rhs| && DerivesEmpty(g, r.rhs[i + 1..])
    ensures Derives(g, [r.lhs], r.rhs[..i] + [r.rhs[i]], n)
  {
    hide Derives;
    var m: nat :| Derives(g, r.rhs[i + 1..], [], m);
    var head := r.rhs[..i] + [r.rhs[i]];
    DerivesInContext(g, head, r.rhs[i + 1..], [], [], m);
    assert head + r.rhs[i + 1..] + [] == r.rhs && head + [] + [] == head;
    RuleStep(g, r, head, m);
    n := m + 1;
  }

  lemma MoveTail(u: Word, w: Word, t: Symbol, v: Word)
    ensures u + w + ([t] + v) == u + w + [t] + v
  {
  }

  lemma MoveHead(u: Word, w: Word, a: Symbol, t: Symbol, v: Word)
    ensures u + (w + [a]) + ([t] + v) == (u + w) + [a] + [t] + v
  {
  }

  /** With every nonterminal reachable, FOLLOW is what the textbook defines. */
  lemma ReachableFollows(g: CFG, a: Symbol, t: Symbol)
    requires g.Valid() && AllReachable(g)
    ensures Follows(g, a, t) <==> FollowsFromStart(g, a, t)
  {
    hide Derives;
    if b :| t in g.terminals && b in g.nonTerminals && Adjacent(g, [b], a, t) {
      var u, v :| DerivesStar(g, [b], u + [a] + [t] + v);
      var x, y :| DerivesStar(g, [g.start], x + [b] + y);
      var n: nat :| Derives(g, [b], u + [a] + [t] + v, n);
      var m: nat :| Derives(g, [g.start], x + [b] + y, m);
      DerivesInContext(g, x, [b], u + [a] + [t] + v, y, n);
      DerivesTransitive(g, [g.start], x + [b] + y, x + (u + [a] + [t] + v) + y, m, n);
      DerivesInContext(g, [], [g.start], x + (u + [a] + [t] + v) + y, [g.eof], m + n);
      assert [] + [g.start] + [g.eof] == [g.start, g.eof];
      assert [] + (x + (u + [a] + [t] + v) + y) + [g.eof] == (x + u) + [a] + [t] + (v + y + [g.eof]);
      assert DerivesStar(g, [g.start, g.eof], (x + u) + [a] + [t] + (v + y + [g.eof]));
    }
  }

  ghost predicate FollowsSound(g: CFG, follow: SetMap) {
    && follow.Keys == g.nonTerminals
    && g.start in follow && g.eof in follow[g.start]
    && forall a, t {:trigger t in follow[a]} :: a in follow && t in follow[a] ==> Follows(g, a, t)
  }

  /** The two inclusions at position i of the right side of r. */
  ghost predicate PositionClosed(g: CFG, nullable: Nullables, first: SetMap, follow: SetMap, r: Rule, i: nat)
    requires Declared(g) && nullable.Keys == first.Keys == Symbols(g) && follow.Keys == g.nonTerminals && r in g.rules && i < |r.rhs|
  {
    r.rhs[i] in g.nonTerminals ==>
      && FirstOfWord(r.rhs[i + 1..], nullable, first) <= follow[r.rhs[i]]
      && (NullableWord(r.rhs[i + 1..], nullable) ==> follow[r.lhs] <= follow[r.rhs[i]])
  }

  ghost predicate FollowsClosed(g: CFG, nullable: Nullables, first: SetMap, follow: SetMap)
    requires Declared(g) && nullable.Keys == first.Keys == Symbols(g) && follow.Keys == g.nonTerminals
  {
    forall r, i {:trigger PositionClosed(g, nullable, first, follow, r, i)} ::
      r in g.rules && 0 <= i < |r.rhs| ==> PositionClosed(g, nullable, first, follow, r, i)
  }

  /** The sets the completeness argument works with. */
  ghost predicate FollowContext(g: CFG, nullable: Nullables, first: SetMap, follow: SetMap) {
    && Declared(g) && g.eof !in g.nonTerminals && nullable.Keys == first.Keys == Symbols(g) && follow.Keys == g.nonTerminals
    && NullablesExact(g, nullable) && FirstsCover(g, nullable, first)
    && g.start in follow && g.eof in follow[g.start] && FollowsClosed(g, nullable, first, follow)
  }

  lemma AtPosition(g: CFG, nullable: Nullables, first: SetMap, follow: SetMap, r: Rule, i: nat, t: Symbol)
    requires FollowContext(g, nullable, first, follow) && r in g.rules && i < |r.rhs| && r.rhs[i] in g.nonTerminals
    requires StartsWith(g, r.rhs[i + 1..], t) || (DerivesEmpty(g, r.rhs[i + 1..]) && t in follow[r.lhs])
    ensures r.rhs[i] in follow && t in follow[r.rhs[i]]
  {
    hide StartsWith, DerivesEmpty;
    assert PositionClosed(g, nullable, first, follow, r, i);
    var tail := r.rhs[i + 1..];
    assert DeclaredWord(g, tail);
    if !StartsWith(g, tail, t) {
      assert NullableWord(tail, nullable);
    }
  }

  lemma OnlyItself(g: CFG, s: Symbol, b: Word, n: nat)
    requires g.Valid() && s !in g.nonTerminals && Derives(g, [s], b, n)
    ensures b == [s]
  {
    TerminalDerives(g, s, b, n);
  }

  /** What follows s follows the last symbol of anything s derives. */
  lemma FollowsLast(g: CFG, nullable: Nullables, first: SetMap, follow: SetMap, s: Symbol, a: Symbol, t: Symbol, u: Word, n: nat)
    requires FollowContext(g, nullable, first, follow) && s in g.nonTerminals && a in g.nonTerminals && s in follow && t in follow[s]
    requires Derives(g, [s], u + [a], n)
    ensures a in follow && t in follow[a]
    decreases n, 0
  {
    hide Derives, FollowContext;
    if n == 0 {
      NoDerivation(g, [s], u + [a]);
      assert (u + [a])[|u|] == a && |u + [a]| == 1;
    } else {
      var r := SymbolStep(g, s, u + [a], n);
      assert r.rhs[0..] == r.rhs;
      FollowsLastOf(g, nullable, first, follow, r, 0, a, t, u, n - 1);
    }
  }

  lemma FollowsLastOf(g: CFG, nullable: Nullables, first: SetMap, follow: SetMap, r: Rule, d: nat, a: Symbol, t: Symbol, u: Word, n: nat)
    requires FollowContext(g, nullable, first, follow) && r in g.rules && d <= |r.rhs| && a in g.nonTerminals
    requires r.lhs in follow && t in follow[r.lhs] && Derives(g, r.rhs[d..], u + [a], n)
    ensures a in follow && t in follow[a]
    decreases n, |r.rhs| - d + 1
  {
    hide Derives, FollowContext;
    if d == |r.rhs| {
      assert r.rhs[d..] == [];
      EmptyDerives(g, u + [a], n);
      assert false;
    } else {
      var s := r.rhs[d];
      assert [s] + r.rhs[d + 1..] == r.rhs[d..];
      var x, y, k, m := Split(g, [s], r.rhs[d + 1..], u + [a], n);
      if y == [] {
        assert x == u + [a];
        ContextGrammar(g, nullable, first, follow);
        if s !in g.nonTerminals {
          assert x[|u|] == a;
          OnlyItself(g, s, x, k);
        } else {
          AtPosition(g, nullable, first, follow, r, d, t);
          FollowsLast(g, nullable, first, follow, s, a, t, u, k);
        }
      } else {
        assert (x + y)[|x + y| - 1] == a;
        assert y == y[..|y| - 1] + [a];
        FollowsLastOf(g, nullable, first, follow, r, d + 1, a, t, y[..|y| - 1], m);
      }
    }
  }

  lemma ContextGrammar(g: CFG, nullable: Nullables, first: SetMap, follow: SetMap)
    requires FollowContext(g, nullable, first, follow)
    ensures g.Valid() && g.eof !in g.nonTerminals && g.start in follow && g.eof in follow[g.start]
  {
  }

  /** A letter that comes after a in something s derives is in FOLLOW(a). */
  lemma AdjacentIsFound(g: CFG, nullable: Nullables, first: SetMap, follow: SetMap, s: Symbol, a: Symbol, t: Symbol, u: Word, v: Word, n: nat)
    requires FollowContext(g, nullable, first, follow) && a in g.nonTerminals && t in g.terminals
    requires Derives(g, [s], u + [a] + [t] + v, n)
    ensures a in follow && t in follow[a]
    decreases n, 0
  {
    hide Derives, FollowContext;
    var goal := u + [a] + [t] + v;
    if n == 0 {
      assert |goal| >= 2;
      NoDerivation(g, [s], goal);
    } else {
      var r := SymbolStep(g, s, goal, n);
      assert r.rhs[0..] == r.rhs;
      AdjacentIsFoundIn(g, nullable, first, follow, r, 0, a, t, u, v, n - 1);
    }
  }

  lemma AdjacentIsFoundIn(g: CFG, nullable: Nullables, first: SetMap, follow: SetMap, r: Rule, d: nat, a: Symbol, t: Symbol, u: Word, v: Word, n: nat)
    requires FollowContext(g, nullable, first, follow) && r in g.rules && d <= |r.rhs| && a in g.nonTerminals && t in g.terminals
    requires Derives(g, r.rhs[d..], u + [a] + [t] + v, n)
    ensures a in follow && t in follow[a]
    decreases n, |r.rhs| - d + 1
  {
    hide Derives, FollowContext;
    var goal := u + [a] + [t] + v;
    if d == |r.rhs| {
      assert r.rhs[d..] == [];
      EmptyDerives(g, goal, n);
      assert false;
    } else {
      var s := r.rhs[d];
      assert [s] + r.rhs[d + 1..] == r.rhs[d..];
      var x, y, k, m := Split(g, [s], r.rhs[d + 1..], goal, n);
      if |x| <= |u| {
        assert y == goal[|x|..] == u[|x|..] + [a] + [t] + v;
        AdjacentIsFoundIn(g, nullable, first, follow, r, d + 1, a, t, u[|x|..], v, m);
      } else if |x| == |u| + 1 {
        assert x == goal[..|x|] == u + [a] && y == goal[|x|..] == [t] + v;
        ContextGrammar(g, nullable, first, follow);
        if s !in g.nonTerminals {
          assert x[|u|] == a;
          OnlyItself(g, s, x, k);
        } else {
          assert DerivesStar(g, r.rhs[d + 1..], [t] + v);
          AtPosition(g, nullable, first, follow, r, d, t);
          FollowsLast(g, nullable, first, follow, s, a, t, u, k);
        }
      } else {
        var v' := x[|u| + 2..];
        assert x == goal[..|x|] == u + [a] + [t] + v';
        AdjacentIsFound(g, nullable, first, follow, s, a, t, u, v', k);
      }
    }
  }

  ghost predicate FollowsExact(g: CFG, follow: SetMap) {
    follow.Keys == g.nonTerminals && forall a, t {:trigger t in follow[a]} :: a in g.nonTerminals ==> (t in follow[a] <==> Follows(g, a, t))
  }

  lemma ExactContext(g: CFG, nullable: Nullables, first: SetMap, follow: SetMap)
    requires Declared(g) && g.eof !in g.nonTerminals && nullable.Keys == first.Keys == Symbols(g) && follow.Keys == g.nonTerminals
    requires NullablesExact(g, nullable) && FirstsExact(g, nullable, first) && FollowsSound(g, follow) && FollowsClosed(g, nullable, first, follow)
    ensures FollowContext(g, nullable, first, follow)
  {
    hide Derives, DerivesEmpty, StartsWith, Follows, NullablesExact, FollowsClosed, Declared;
  }

  lemma FollowsAreExact(g: CFG, nullable: Nullables, first: SetMap, follow: SetMap)
    requires FollowContext(g, nullable, first, follow) && FollowsSound(g, follow)
    ensures FollowsExact(g, follow)
  {
    hide Derives, NullablesExact, FirstsExact, FollowsClosed, Declared;
    forall a, t | a in g.nonTerminals ensures t in follow[a] <==> Follows(g, a, t) {
      if Follows(g, a, t) {
        FollowIsFound(g, nullable, first, follow, a, t);
      }
    }
  }

  lemma FollowIsFound(g: CFG, nullable: Nullables, first: SetMap, follow: SetMap, a: Symbol, t: Symbol)
    requires FollowContext(g, nullable, first, follow) && a in g.nonTerminals && Follows(g, a, t)
    ensures a in follow && t in follow[a]
  {
    hide Derives, FollowContext, Follows;
    assert t in g.terminals by { FollowsTerminal(g, a, t); }
    var x, u, v, n := FollowsRoot(g, a, t);
    var goal := u + [a] + [t] + v;
    if x == [g.start, g.eof] {
      assert [g.start] + [g.eof] == x;
      var y, z, k, m := Split(g, [g.start], [g.eof], goal, n);
      ContextGrammar(g, nullable, first, follow);
      OnlyItself(g, g.eof, z, m);
      if |y| == |u| + 1 {
        assert y == goal[..|y|] == u + [a] && z == goal[|y|..] == [t] + v;
        assert z[0] == t;
        FollowsLast(g, nullable, first, follow, g.start, a, t, u, k);
      } else {
        assert |goal| == |y| + 1 && |y| >= |u| + 2;
        var v' := y[|u| + 2..];
        assert y == goal[..|y|] == u + [a] + [t] + v';
        AdjacentIsFound(g, nullable, first, follow, g.start, a, t, u, v', k);
      }
    } else {
      var b :| b in g.nonTerminals && x == [b];
      AdjacentIsFound(g, nullable, first, follow, b, a, t, u, v, n);
    }
  }

  lemma FollowsTerminal(g: CFG, a: Symbol, t: Symbol)
    requires Follows(g, a, t)
    ensures t in g.terminals
  {
  }

  lemma IncludeSound(g: CFG, follow: SetMap, a: Symbol, more: set<Symbol>)
    requires FollowsSound(g, follow) && a in follow && forall t :: t in more ==> Follows(g, a, t)
    ensures FollowsSound(g, follow[a := follow[a] + more])
  {
    hide Follows;
  }

  method VisitPosition(g: CFG, nullable: Nullables, first: SetMap, r: Rule, i: nat, follow0: SetMap) returns (follow: SetMap, change: bool)
    requires Declared(g) && nullable.Keys == first.Keys == Symbols(g) && NullablesExact(g, nullable) && FirstsExact(g, nullable, first)
    requires FollowsSound(g, follow0) && follow0.Keys == g.nonTerminals && r in g.rules && i < |r.rhs|
    ensures FollowsSound(g, follow) && Grows(follow0, follow) && follow.Keys == g.nonTerminals && (change <==> follow != follow0)
    ensures !change ==> PositionClosed(g, nullable, first, follow, r, i)
  {
    hide DerivesEmpty, StartsWith, Follows, Grows, NullableWord, FollowsSound;
    follow, change := follow0, false;
    GrowsItself(follow);
    if r.rhs[i] in g.nonTerminals {
      var b := r.rhs[i + 1..];
      assert DeclaredWord(g, b);
      var firstb := First(b, nullable, first);
      if b != [] {
        forall t | t in firstb ensures Follows(g, r.rhs[i], t) {
          assert StartsWith(g, b, t) by { InFirstStarts(g, nullable, first, b, t); }
          FirstFollows(g, r, i, t);
        }
        IncludeSound(g, follow, r.rhs[i], firstb);
        follow, change := Include(follow, r.rhs[i], firstb);
      }
      var isNullable := IsNullableRule(b, nullable);
      if isNullable {
        ghost var before := follow;
        var followA := follow[r.lhs];
        forall t | t in followA ensures Follows(g, r.rhs[i], t) {
          SoundAt(g, follow, r.lhs, t);
          FollowPassesDown(g, r, i, t);
        }
        IncludeSound(g, follow, r.rhs[i], followA);
        var more;
        follow, more := Include(follow, r.rhs[i], followA);
        StrictGrowth(follow0, before, follow);
        change := change || more;
      }
    }
  }

  lemma InFirstStarts(g: CFG, nullable: Nullables, first: SetMap, w: Word, t: Symbol)
    requires FirstsExact(g, nullable, first) && DeclaredWord(g, w) && t in FirstOfWord(w, nullable, first)
    ensures StartsWith(g, w, t)
  {
  }

  lemma SoundAt(g: CFG, follow: SetMap, a: Symbol, t: Symbol)
    requires FollowsSound(g, follow) && a in follow && t in follow[a]
    ensures Follows(g, a, t)
  {
  }

  lemma SoundKeys(g: CFG, follow: SetMap)
    requires FollowsSound(g, follow)
    ensures follow.Keys == g.nonTerminals
    ensures forall a, t :: a in follow && t in follow[a] ==> t in g.terminals
  {
  }

  /** The positions before i of the right side of r are closed. */
  ghost predicate RuleClosedUpTo(g: CFG, nullable: Nullables, first: SetMap, follow: SetMap, r: Rule, n: nat)
    requires Declared(g) && nullable.Keys == first.Keys == Symbols(g) && follow.Keys == g.nonTerminals && r in g.rules && n <= |r.rhs|
  {
    forall i {:trigger PositionClosed(g, nullable, first, follow, r, i)} :: 0 <= i < n ==> PositionClosed(g, nullable, first, follow, r, i)
  }

  method VisitRule(g: CFG, nullable: Nullables, first: SetMap, r: Rule, follow0: SetMap) returns (follow: SetMap, change: bool)
    requires Declared(g) && nullable.Keys == first.Keys == Symbols(g) && NullablesExact(g, nullable) && FirstsExact(g, nullable, first)
    requires FollowsSound(g, follow0) && follow0.Keys == g.nonTerminals && r in g.rules
    ensures FollowsSound(g, follow) && Grows(follow0, follow) && follow.Keys == g.nonTerminals && (change <==> follow != follow0)
    ensures !change ==> RuleClosedUpTo(g, nullable, first, follow, r, |r.rhs|)
  {
    hide NullablesExact, FirstsExact, FollowsSound, PositionClosed, Grows;
    follow, change := follow0, false;
    GrowsItself(follow);
    for i := 0 to |r.rhs|
      invariant FollowsSound(g, follow) && Grows(follow0, follow) && follow.Keys == g.nonTerminals && (change <==> follow != follow0)
      invariant !change ==> RuleClosedUpTo(g, nullable, first, follow, r, i)
    {
      ghost var before := follow;
      var more;
      follow, more := VisitPosition(g, nullable, first, r, i, follow);
      StrictGrowth(follow0, before, follow);
      change := change || more;
    }
  }

  method FindFollows(g: CFG, nullable: Nullables, first: SetMap) returns (follow: SetMap)
    requires Declared(g) && g.eof !in g.nonTerminals && nullable.Keys == first.Keys == Symbols(g)
    requires NullablesExact(g, nullable) && FirstsExact(g, nullable, first)
    ensures FollowsExact(g, follow)
  {
    hide NullablesExact, FirstsExact, FollowsSound, FollowsExact, RuleClosedUpTo, Grows, Entries, AllEntries, FollowsClosed;
    follow := map s | s in g.nonTerminals :: {};
    follow := follow[g.start := follow[g.start] + {g.eof}];
    InitialFollows(g, follow);
    var change := true;
    while change
      invariant FollowsSound(g, follow) && follow.Keys == g.nonTerminals
      invariant !change ==> FollowsClosed(g, nullable, first, follow)
      decreases AllEntries(g) - Entries(g, follow), change
    {
      change := false;
      ghost var start := follow;
      GrowsItself(follow);
      for i := 0 to |g.rules|
        invariant FollowsSound(g, follow) && Grows(start, follow) && follow.Keys == g.nonTerminals && (change <==> follow != start)
        invariant !change ==> forall j {:trigger g.rules[j]} :: 0 <= j < i ==>
                                RuleClosedUpTo(g, nullable, first, follow, g.rules[j], |g.rules[j].rhs|)
      {
        ghost var before := follow;
        var more;
        follow, more := VisitRule(g, nullable, first, g.rules[i], follow);
        StrictGrowth(start, before, follow);
        change := change || more;
      }
      if change {
        SoundKeys(g, follow);
        GrowthUsesEntries(g, start, follow);
      } else {
        AllFollowsClosed(g, nullable, first, follow);
      }
    }
    ExactContext(g, nullable, first, follow);
    FollowsAreExact(g, nullable, first, follow);
  }

  lemma InitialFollows(g: CFG, follow: SetMap)
    requires g.Valid() && follow.Keys == g.nonTerminals && forall a :: a in follow ==> follow[a] == if a == g.start then {g.eof} else {}
    ensures FollowsSound(g, follow)
  {
    hide Follows;
    StartIsFollowedByEof(g);
  }

  lemma AllFollowsClosed(g: CFG, nullable: Nullables, first: SetMap, follow: SetMap)
    requires Declared(g) && nullable.Keys == first.Keys == Symbols(g) && follow.Keys == g.nonTerminals
    requires forall j {:trigger g.rules[j]} :: 0 <= j < |g.rules| ==> RuleClosedUpTo(g, nullable, first, follow, g.rules[j], |g.rules[j].rhs|)
    ensures FollowsClosed(g, nullable, first, follow)
  {
    hide PositionClosed;
    forall r, i | r in g.rules && 0 <= i < |r.rhs| ensures PositionClosed(g, nullable, first, follow, r, i) {
      var j :| 0 <= j < |g.rules| && g.rules[j] == r;
      assert RuleClosedUpTo(g, nullable, first, follow, g.rules[j], |g.rules[j].rhs|);
    }
  }
}
