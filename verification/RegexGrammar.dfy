/** The grammar of regular expressions, and that it is LL(1). */
module RegexGrammar {
  import opened Words
  import opened Grammar
  import opened CfgSets
  import opened Ll1
  import opened RegexText

  // the nonterminals
  const TUPLE: nat := 260
  const CONCAT: nat := 261
  const CONCAT2: nat := 262
  const UNION: nat := 263
  const UNION2: nat := 264
  const KSTAR: nat := 265
  const KSTAR2: nat := 266
  const BRACES: nat := 267

  function Rules(): seq<Rule> {
    [ Rule(UNION, [CONCAT, UNION2]),
      Rule(UNION2, [PLUS, CONCAT, UNION2]),
      Rule(UNION2, []),
      Rule(CONCAT, [KSTAR, CONCAT2]),
      Rule(CONCAT2, [DOT, KSTAR, CONCAT2]),
      Rule(CONCAT2, []),
      Rule(KSTAR, [BRACES, KSTAR2]),
      Rule(KSTAR2, [STAR]),
      Rule(KSTAR2, [BANG]),
      Rule(KSTAR2, []),
      Rule(TUPLE, [LT, ID, COMMA, ID, GT]),
      Rule(TUPLE, [ID]),
      Rule(TUPLE, [NULLTOKEN]),
      Rule(BRACES, [LP, UNION, RP]),
      Rule(BRACES, [TUPLE]) ]
  }

  function Terminals(): set<Symbol> {
    {EOF, ID, DOT, PLUS, STAR, LT, COMMA, GT, LP, RP, BANG, NULLTOKEN}
  }

  function NonTerminals(): set<Symbol> {
    {CONCAT, CONCAT2, UNION, UNION2, KSTAR, KSTAR2, TUPLE, BRACES}
  }

  function RegexCfg(): CFG {
    CFG(Rules(), Terminals(), NonTerminals(), UNION, EOF)
  }

  /** The rules by their left sides. */
  ghost predicate RuleCases(r: Rule) {
    || (r.lhs == UNION && r.rhs == [CONCAT, UNION2])
    || (r.lhs == UNION2 && (r.rhs == [PLUS, CONCAT, UNION2] || r.rhs == []))
    || (r.lhs == CONCAT && r.rhs == [KSTAR, CONCAT2])
    || (r.lhs == CONCAT2 && (r.rhs == [DOT, KSTAR, CONCAT2] || r.rhs == []))
    || (r.lhs == KSTAR && r.rhs == [BRACES, KSTAR2])
    || (r.lhs == KSTAR2 && (r.rhs == [STAR] || r.rhs == [BANG] || r.rhs == []))
    || (r.lhs == TUPLE && (r.rhs == [LT, ID, COMMA, ID, GT] || r.rhs == [ID] || r.rhs == [NULLTOKEN]))
    || (r.lhs == BRACES && (r.rhs == [LP, UNION, RP] || r.rhs == [TUPLE]))
  }

  lemma RulesAreCases(r: Rule)
    requires r in Rules()
    ensures RuleCases(r)
  {
  }

  lemma CfgUsable()
    ensures Usable(RegexCfg(), EPS) && Declared(RegexCfg())
  {
    hide Rules;
    var g := RegexCfg();
    forall r | r in g.rules ensures r.lhs in g.nonTerminals && forall s :: s in r.rhs ==> s in Symbols(g) {
      RulesAreCases(r);
      CaseSymbols(r);
    }
  }

  lemma CaseSymbols(r: Rule)
    requires RuleCases(r)
    ensures r.lhs in NonTerminals() && forall s :: s in r.rhs ==> s in Symbols(RegexCfg())
  {
    hide Rules;
  }

  // ---------- the sets ----------

  predicate CanVanish(s: Symbol) {
    s == UNION2 || s == CONCAT2 || s == KSTAR2
  }

  function FirstOf(s: Symbol): set<Symbol> {
    if s == UNION2 then {PLUS}
    else if s == CONCAT2 then {DOT}
    else if s == KSTAR2 then {STAR, BANG}
    else if s == TUPLE then {LT, ID, NULLTOKEN}
    else if s == BRACES || s == KSTAR || s == CONCAT || s == UNION then {LP, LT, ID, NULLTOKEN}
    else {s}
  }

  function FollowOf(s: Symbol): set<Symbol> {
    if s == UNION || s == UNION2 then {EOF, RP}
    else if s == CONCAT || s == CONCAT2 then {EOF, RP, PLUS}
    else if s == KSTAR || s == KSTAR2 then {EOF, RP, PLUS, DOT}
    else {EOF, RP, PLUS, DOT, STAR, BANG}
  }

  function NullableMap(): Nullables {
    map s | s in Symbols(RegexCfg()) :: CanVanish(s)
  }

  function FirstMap(): SetMap {
    map s | s in Symbols(RegexCfg()) :: FirstOf(s)
  }

  function FollowMap(): SetMap {
    map s | s in NonTerminals() :: FollowOf(s)
  }

  lemma VanishingRules()
    ensures NullablesSound(RegexCfg(), NullableMap())
  {
    var g := RegexCfg();
    EmptyWordDerivesEmpty(g);
    hide DerivesEmpty;
    assert Rules()[2] == Rule(UNION2, []) && Rules()[5] == Rule(CONCAT2, []) && Rules()[9] == Rule(KSTAR2, []);
    RuleDerivesEmpty(g, Rules()[2]);
    RuleDerivesEmpty(g, Rules()[5]);
    RuleDerivesEmpty(g, Rules()[9]);
  }

  lemma VanishingClosed()
    ensures NullablesClosed(RegexCfg(), NullableMap())
  {
    hide Rules, Terminals, NonTerminals;
    var g, res := RegexCfg(), NullableMap();
    forall r | r in g.rules && NullableWord(r.rhs, res) ensures r.lhs in res && res[r.lhs] {
      RulesAreCases(r);
      VanishesAt(r, res);
      InSymbols(r.lhs);
    }
  }

  lemma InSymbols(s: Symbol)
    requires s in {CONCAT, CONCAT2, UNION, UNION2, KSTAR, KSTAR2, TUPLE, BRACES}
    ensures s in Symbols(RegexCfg()) && s in NonTerminals()
  {
  }

  lemma VanishesAt(r: Rule, res: Nullables)
    requires RuleCases(r) && NullableWord(r.rhs, res) && forall s :: s in res ==> res[s] == CanVanish(s)
    ensures r.rhs == [] && CanVanish(r.lhs)
  {
    if r.rhs != [] {
      FirstVanishes(r.rhs, res);
      assert false;
    }
  }

  lemma FirstVanishes(w: Word, res: Nullables)
    requires w != [] && NullableWord(w, res) && forall s :: s in res ==> res[s] == CanVanish(s)
    ensures CanVanish(w[0])
  {
    assert w[0] in w;
  }

  lemma FirstClosedAt(r: Rule)
    requires RuleCases(r) && (forall s :: s in r.rhs ==> s in Symbols(RegexCfg())) && r.lhs in Symbols(RegexCfg())
    ensures FirstOfWord(r.rhs, NullableMap(), FirstMap()) <= FirstOf(r.lhs)
    ensures r.rhs != [] ==> FirstOfWord(r.rhs, NullableMap(), FirstMap()) == FirstOf(r.rhs[0])
  {
    if r.rhs != [] {
      var s := r.rhs[0];
      assert s in r.rhs;
    }
  }

  lemma ClosedFirst()
    requires Declared(RegexCfg())
    ensures FirstsClosed(RegexCfg(), NullableMap(), FirstMap())
  {
    hide Rules, Terminals, NonTerminals;
    var g := RegexCfg();
    forall r | r in g.rules ensures FirstOfWord(r.rhs, NullableMap(), FirstMap()) <= FirstMap()[r.lhs] {
      RulesAreCases(r);
      hide RuleCases, FirstOfWord;
      FirstClosedAt(r);
    }
  }

  /** What comes after position i of a right side. */
  lemma TailAt(r: Rule, i: nat)
    requires RuleCases(r) && i < |r.rhs| && r.rhs[i] in NonTerminals()
    ensures
      var rest := r.rhs[i + 1..];
      || rest == []
      || (rest == [UNION2] && r.rhs[i] == CONCAT) || (rest == [CONCAT2] && r.rhs[i] == KSTAR)
      || (rest == [KSTAR2] && r.rhs[i] == BRACES) || (rest == [RP] && r.rhs[i] == UNION)
    ensures i + 1 == |r.rhs| ==>
      || (r.rhs[i] == UNION2 && (r.lhs == UNION || r.lhs == UNION2)) || (r.rhs[i] == CONCAT2 && (r.lhs == CONCAT || r.lhs == CONCAT2))
      || (r.rhs[i] == KSTAR2 && r.lhs == KSTAR) || (r.rhs[i] == TUPLE && r.lhs == BRACES)
    ensures i + 2 == |r.rhs| ==>
      || (r.rhs[i] == CONCAT && (r.lhs == UNION || r.lhs == UNION2)) || (r.rhs[i] == KSTAR && (r.lhs == CONCAT || r.lhs == CONCAT2))
      || (r.rhs[i] == BRACES && r.lhs == KSTAR) || (r.rhs[i] == UNION && r.lhs == BRACES)
  {
    hide Rules, Terminals;
  }

  /** The inclusions for FOLLOW, position by position. */
  lemma FollowClosedAt(r: Rule, i: nat)
    requires RuleCases(r) && i < |r.rhs| && r.rhs[i] in NonTerminals() && (forall s :: s in r.rhs ==> s in Symbols(RegexCfg()))
    ensures FirstOfWord(r.rhs[i + 1..], NullableMap(), FirstMap()) <= FollowOf(r.rhs[i])
    ensures NullableWord(r.rhs[i + 1..], NullableMap()) ==> FollowOf(r.lhs) <= FollowOf(r.rhs[i])
  {
    hide Rules, RuleCases, Terminals, NonTerminals;
    TailAt(r, i);
    var rest := r.rhs[i + 1..];
    if rest == [] {
    } else {
      var s := rest[0];
      assert s == r.rhs[i + 1] && s in r.rhs && rest == [s];
      assert FirstOfWord(rest, NullableMap(), FirstMap()) <= FirstOf(s);
      if NullableWord(rest, NullableMap()) {
        assert s in rest && CanVanish(s);
      }
    }
  }

  lemma ClosedFollow()
    requires Declared(RegexCfg()) && NullableMap().Keys == FirstMap().Keys == Symbols(RegexCfg()) && FollowMap().Keys == NonTerminals()
    ensures FollowsClosed(RegexCfg(), NullableMap(), FirstMap(), FollowMap())
  {
    hide Rules, Terminals, FollowOf, FirstOfWord, NullableWord, FirstMap, NullableMap;
    MapKeys();
    var g := RegexCfg();
    forall r, i | r in g.rules && 0 <= i < |r.rhs| ensures PositionClosed(g, NullableMap(), FirstMap(), FollowMap(), r, i) {
      RulesAreCases(r);
      CaseSymbols(r);
      if r.rhs[i] in g.nonTerminals {
        FollowClosedAt(r, i);
      }
    }
  }

  lemma MapKeys()
    ensures NullableMap().Keys == FirstMap().Keys == Symbols(RegexCfg()) && FollowMap().Keys == NonTerminals()
  {
  }

  /** The sets bound what can start a word and what can follow a nonterminal. */
  lemma SetsCover()
    ensures Declared(RegexCfg()) && NullablesExact(RegexCfg(), NullableMap())
    ensures FirstsCover(RegexCfg(), NullableMap(), FirstMap()) && FollowContext(RegexCfg(), NullableMap(), FirstMap(), FollowMap())
  {
    hide Rules, NullablesExact, NullablesSound, NullablesClosed, FirstsClosed, FirstsCover, FollowsClosed, Declared;
    CfgUsable();
    MapKeys();
    VanishingRules();
    VanishingClosed();
    NullablesAreExact(RegexCfg(), NullableMap());
    ClosedFirst();
    TerminalFirsts(FirstMap());
    ClosedFirstsCover(RegexCfg(), NullableMap(), FirstMap());
    ClosedFollow();
  }

  lemma TerminalFirsts(first: SetMap)
    requires first == FirstMap()
    ensures forall t {:trigger first[t]} :: t in RegexCfg().terminals ==> t in first && t in first[t]
  {
    hide Rules, FirstMap;
    forall t | t in RegexCfg().terminals ensures t in first && t in first[t] {
      TerminalFirst(t);
    }
  }

  lemma TerminalFirst(t: Symbol)
    requires t in Terminals()
    ensures t in FirstMap() && t in FirstMap()[t]
  {
    hide Rules;
    assert t in Symbols(RegexCfg());
    assert FirstMap()[t] == FirstOf(t);
  }

  // ---------- LL(1) ----------

  /** All letters that can make the parser choose r. */
  function Choosing(r: Rule): set<Symbol> {
    if r.rhs == [] then FollowOf(r.lhs) else FirstOf(r.rhs[0])
  }

  lemma PredictsChooses(r: Rule, l: Symbol)
    requires r in Rules() && Predicts(RegexCfg(), r, l)
    ensures l in Choosing(r)
  {
    hide Rules, Terminals, StartsWith, DerivesEmpty, Follows, FirstOfWord, NullableMap, FirstMap, FollowMap;
    var g := RegexCfg();
    RulesAreCases(r);
    CaseSymbols(r);
    SetsCover();
    MapKeys();
    if StartsWith(g, r.rhs, l) {
      assert DeclaredWord(g, r.rhs);
      assert l in FirstOfWord(r.rhs, NullableMap(), FirstMap());
      EmptyStarts(g, r, l);
      FirstClosedAt(r);
    } else {
      Vanishes(r);
      FollowIsFound(g, NullableMap(), FirstMap(), FollowMap(), r.lhs, l);
      FollowValue(r.lhs);
    }
  }

  lemma EmptyStarts(g: CFG, r: Rule, l: Symbol)
    requires StartsWith(g, r.rhs, l)
    ensures r.rhs != []
  {
    hide Derives;
    var rest :| DerivesStar(g, r.rhs, [l] + rest);
    var n: nat :| Derives(g, r.rhs, [l] + rest, n);
    if r.rhs == [] {
      EmptyDerives(g, [l] + rest, n);
      assert false;
    }
  }

  lemma Vanishes(r: Rule)
    requires RuleCases(r) && DerivesEmpty(RegexCfg(), r.rhs)
    ensures r.rhs == []
  {
    hide Rules, Terminals, NonTerminals, DerivesEmpty;
    SetsCover();
    assert NullableWord(r.rhs, NullableMap());
    VanishesAt(r, NullableMap());
  }

  lemma FollowValue(a: Symbol)
    requires a in NonTerminals()
    ensures a in FollowMap() && FollowMap()[a] == FollowOf(a)
  {
  }

  /** Two rules for one nonterminal are never chosen on the same letter. */
  lemma Apart(r: Rule, q: Rule, l: Symbol)
    requires RuleCases(r) && RuleCases(q) && r.lhs == q.lhs && r.rhs != q.rhs
    ensures !(l in Choosing(r) && l in Choosing(q))
  {
    hide Rules, Terminals, NonTerminals;
  }

  function IndexOf(r: Rule): nat {
    if r.rhs == [] then (if r.lhs == UNION2 then 2 else if r.lhs == CONCAT2 then 5 else 9)
    else if r.lhs == UNION then 0
    else if r.lhs == UNION2 then 1
    else if r.lhs == CONCAT then 3
    else if r.lhs == CONCAT2 then 4
    else if r.lhs == KSTAR then 6
    else if r.lhs == KSTAR2 then (if r.rhs[0] == STAR then 7 else 8)
    else if r.lhs == TUPLE then (if r.rhs[0] == LT then 10 else if r.rhs[0] == ID then 11 else 12)
    else if r.rhs[0] == LP then 13 else 14
  }

  lemma EachRuleOnce(i: nat)
    requires i < |Rules()|
    ensures IndexOf(Rules()[i]) == i
  {
    var r := Rules()[i];
  }

  /** The grammar of regular expressions is LL(1): its table is built without a conflict. */
  lemma RegexIsLl1()
    ensures IsLl1(RegexCfg())
  {
    hide Rules, Terminals, NonTerminals, StartsWith, DerivesEmpty, Follows, Predicts, Choosing, RuleCases;
    var g := RegexCfg();
    forall i, j, l | 0 <= i < j < |g.rules| && g.rules[i].lhs == g.rules[j].lhs ensures !(Predicts(g, g.rules[i], l) && Predicts(g, g.rules[j], l)) {
      var r, q := g.rules[i], g.rules[j];
      if Predicts(g, r, l) && Predicts(g, q, l) {
        EachRuleOnce(i);
        EachRuleOnce(j);
        RulesAreCases(r);
        RulesAreCases(q);
        PredictsChooses(r, l);
        PredictsChooses(q, l);
        Apart(r, q, l);
        assert false;
      }
    }
    forall i, l | 0 <= i < |g.rules| ensures !(StartsWith(g, g.rules[i].rhs, l) && DerivesEmpty(g, g.rules[i].rhs) && Follows(g, g.rules[i].lhs, l)) {
      var r := g.rules[i];
      RulesAreCases(r);
      if StartsWith(g, r.rhs, l) {
        EmptyStarts(g, r, l);
        if DerivesEmpty(g, r.rhs) {
          Vanishes(r);
          assert false;
        }
      }
    }
  }
}
