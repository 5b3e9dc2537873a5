/** The parser object: table construction, runs, and parse trees. */
module Parser {
  import opened Words
  import opened Grammar
  import opened CfgSets
  import opened Dpda
  import opened Ll1
  import ParseTree

  // ---------- filling the table ----------

  /** A reason to enter rule `rule` for the letter l. */
  datatype Reason = Reason(rule: nat, viaFollow: bool, l: Symbol)

  ghost predicate IsReason(g: CFG, d: Reason) {
    d.rule < |g.rules| &&
    var r := g.rules[d.rule];
    if d.viaFollow then DerivesEmpty(g, r.rhs) && Follows(g, r.lhs, d.l) else StartsWith(g, r.rhs, d.l)
  }

  function ReasonKey(g: CFG, eps: Symbol, d: Reason): Key
    requires d.rule < |g.rules|
  {
    TopKey(eps, d.l, g.rules[d.rule].lhs)
  }

  /** The table after the start entry and the reasons `done`; a conflict is a key added twice. */
  ghost predicate RulesEntered(g: CFG, eps: Symbol, delta: Delta, conflicts: nat, done: set<Reason>) {
    && (forall k {:trigger delta[k]} :: k in delta ==> EntryOk(g, eps, k, delta[k]))
    && StartKey(eps) in delta
    && (forall k :: k in delta ==> k == StartKey(eps) || exists d :: d in done && d.rule < |g.rules| && k == ReasonKey(g, eps, d))
    && (forall d :: d in done ==> IsReason(g, d) && d.rule < |g.rules| && ReasonKey(g, eps, d) in delta)
    && (conflicts == 0 <==> forall d, e :: d in done && e in done && d != e ==> !SameKey(g, eps, d, e))
  }

  ghost predicate SameKey(g: CFG, eps: Symbol, d: Reason, e: Reason) {
    d.rule < |g.rules| && e.rule < |g.rules| && ReasonKey(g, eps, d) == ReasonKey(g, eps, e)
  }

  lemma EnterReason(g: CFG, eps: Symbol, delta: Delta, conflicts: nat, done: set<Reason>, d: Reason)
    requires Usable(g, eps) && RulesEntered(g, eps, delta, conflicts, done) && IsReason(g, d) && d !in done
    ensures var k := ReasonKey(g, eps, d);
      if k in delta then RulesEntered(g, eps, delta, conflicts + 1, done + {d})
      else RulesEntered(g, eps, delta[k := Move(Seen(d.l), g.rules[d.rule].rhs)], conflicts, done + {d})
  {
    hide EntryOk, IsReason, Usable;
    ReasonEntry(g, eps, d);
    var k := ReasonKey(g, eps, d);
    if k in delta {
      var e :| e in done && e.rule < |g.rules| && k == ReasonKey(g, eps, e);
      assert SameKey(g, eps, d, e) && d in done + {d} && e in done + {d};
    } else {
      forall e | e in done ensures !SameKey(g, eps, d, e) && !SameKey(g, eps, e, d) {
        assert ReasonKey(g, eps, e) in delta;
      }
    }
  }

  lemma ReasonEntry(g: CFG, eps: Symbol, d: Reason)
    requires Usable(g, eps) && IsReason(g, d)
    ensures d.rule < |g.rules| && EntryOk(g, eps, ReasonKey(g, eps, d), Move(Seen(d.l), g.rules[d.rule].rhs))
  {
    hide StartsWith, DerivesEmpty, Follows;
    var r := g.rules[d.rule];
    assert r in g.rules && Predicts(g, r, d.l);
  }

  /** Every reason is entered: the number of conflicts says whether the grammar is LL(1). */
  lemma ConflictsDecideLl1(g: CFG, eps: Symbol, delta: Delta, conflicts: nat, done: set<Reason>)
    requires RulesEntered(g, eps, delta, conflicts, done) && forall d :: IsReason(g, d) ==> d in done
    ensures conflicts == 0 <==> IsLl1(g)
  {
    hide StartsWith, DerivesEmpty, Follows, EntryOk;
    if i: nat, j: nat, l :| i < j < |g.rules| && g.rules[i].lhs == g.rules[j].lhs && Predicts(g, g.rules[i], l) && Predicts(g, g.rules[j], l) {
      var d := Reason(i, !StartsWith(g, g.rules[i].rhs, l), l);
      var e := Reason(j, !StartsWith(g, g.rules[j].rhs, l), l);
      assert IsReason(g, d) && IsReason(g, e) && SameKey(g, eps, d, e);
    } else if i: nat, l :| i < |g.rules| && StartsWith(g, g.rules[i].rhs, l) && DerivesEmpty(g, g.rules[i].rhs) && Follows(g, g.rules[i].lhs, l) {
      var d, e := Reason(i, false, l), Reason(i, true, l);
      assert IsReason(g, d) && IsReason(g, e) && SameKey(g, eps, d, e);
    }
    if IsLl1(g) {
      forall d, e | d in done && e in done && d != e ensures !SameKey(g, eps, d, e) {
        assert IsReason(g, d) && IsReason(g, e);
        assert Predicts(g, g.rules[d.rule], d.l) && Predicts(g, g.rules[e.rule], e.l);
      }
    }
  }

  /** Everything is in: the rules, one reading entry per terminal and one popping entry per terminal but eof. */
  ghost predicate TerminalsEntered(g: CFG, eps: Symbol, delta: Delta, done: set<Symbol>) {
    && (forall k {:trigger delta[k]} :: k in delta ==> EntryOk(g, eps, k, delta[k]))
    && StartKey(eps) in delta
    && (forall r, l {:trigger Predicts(g, r, l)} :: r in g.rules && Predicts(g, r, l) ==> TopKey(eps, l, r.lhs) in delta)
    && (forall l {:trigger ReadKey(eps, l)} :: l in g.terminals ==> (ReadKey(eps, l) in delta <==> l in done))
    && (forall l {:trigger TopKey(eps, l, l)} :: l in g.terminals ==> (TopKey(eps, l, l) in delta <==> l in done && l != g.eof))
  }

  lemma RulesDone(g: CFG, eps: Symbol, delta: Delta, conflicts: nat, done: set<Reason>)
    requires Usable(g, eps) && RulesEntered(g, eps, delta, conflicts, done) && forall d :: IsReason(g, d) ==> d in done
    ensures TerminalsEntered(g, eps, delta, {})
  {
    hide EntryOk, StartsWith, DerivesEmpty, Follows;
    forall r, l | r in g.rules && Predicts(g, r, l) ensures TopKey(eps, l, r.lhs) in delta {
      var i :| 0 <= i < |g.rules| && g.rules[i] == r;
      var d := Reason(i, !StartsWith(g, r.rhs, l), l);
      assert IsReason(g, d);
      assert ReasonKey(g, eps, d) in delta;
    }
    forall k | k in delta && k.q.Seen? ensures k.x in g.nonTerminals {
      var d :| d in done && d.rule < |g.rules| && k == ReasonKey(g, eps, d);
      assert g.rules[d.rule] in g.rules;
    }
  }

  lemma EnterTerminal(g: CFG, eps: Symbol, delta: Delta, done: set<Symbol>, l: Symbol)
    requires Usable(g, eps) && TerminalsEntered(g, eps, delta, done) && l in g.terminals && l !in done
    ensures ReadKey(eps, l) !in delta && TopKey(eps, l, l) !in delta
    ensures var half := delta[ReadKey(eps, l) := Move(Seen(l), [])];
      && TopKey(eps, l, l) !in half
      && TerminalsEntered(g, eps, if l == g.eof then half else half[TopKey(eps, l, l) := Move(Ready, [])], done + {l})
  {
    hide Predicts;
    var half := delta[ReadKey(eps, l) := Move(Seen(l), [])];
    assert EntryOk(g, eps, ReadKey(eps, l), Move(Seen(l), []));
    assert l != g.eof ==> EntryOk(g, eps, TopKey(eps, l, l), Move(Ready, []));
  }

  lemma TableDone(g: CFG, eps: Symbol, delta: Delta)
    requires TerminalsEntered(g, eps, delta, g.terminals)
    ensures IsTable(g, eps, delta)
  {
    hide EntryOk, Predicts;
  }

  class LlParser {
    const g: CFG
    const eps: Symbol
    var delta: Delta
    var qFinal: State
    /** How often `AddTransition` has logged a conflict. */
    var conflicts: nat

    ghost predicate Valid()
      reads this
    {
      Usable(g, eps) && IsTable(g, eps, delta) && qFinal == Seen(g.eof) && (conflicts == 0 <==> IsLl1(g))
    }

    /** A key that is taken keeps its entry: the conflict is only logged. */
    method AddTransition(k: Key, m: Move)
      modifies this`delta, this`conflicts
      ensures if k in old(delta) then delta == old(delta) && conflicts == old(conflicts) + 1
              else delta == old(delta)[k := m] && conflicts == old(conflicts)
    {
      if k in delta {
        conflicts := conflicts + 1;
      } else {
        delta := delta[k := m];
      }
    }

    /** The entries of one rule for the letters of one set. */
    method EnterLetters(rule: nat, viaFollow: bool, letters: set<Symbol>, ghost done0: set<Reason>) returns (ghost done: set<Reason>)
      requires Usable(g, eps) && rule < |g.rules| && RulesEntered(g, eps, delta, conflicts, done0)
      requires forall l :: l in letters ==> IsReason(g, Reason(rule, viaFollow, l)) && Reason(rule, viaFollow, l) !in done0
      modifies this`delta, this`conflicts
      ensures RulesEntered(g, eps, delta, conflicts, done)
      ensures done == done0 + set l | l in letters :: Reason(rule, viaFollow, l)
    {
      hide RulesEntered, IsReason, Usable;
      done := done0;
      var todo := letters;
      while todo != {}
        invariant todo <= letters && RulesEntered(g, eps, delta, conflicts, done)
        invariant done == done0 + set l | l in letters - todo :: Reason(rule, viaFollow, l)
      {
        var l :| l in todo;
        ghost var d := Reason(rule, viaFollow, l);
        EnterReason(g, eps, delta, conflicts, done, d);
        AddTransition(TopKey(eps, l, g.rules[rule].lhs), Move(Seen(l), g.rules[rule].rhs));
        done := done + {d};
        todo := todo - {l};
      }
    }

    method EnterRule(rule: nat, nullable: Nullables, first: SetMap, follow: SetMap, ghost done0: set<Reason>) returns (ghost done: set<Reason>)
      requires Usable(g, eps) && rule < |g.rules| && RulesEntered(g, eps, delta, conflicts, done0)
      requires nullable.Keys == first.Keys == Symbols(g) && follow.Keys == g.nonTerminals
      requires NullablesExact(g, nullable) && FirstsExact(g, nullable, first) && FollowsExact(g, follow)
      requires forall d :: d in done0 ==> d.rule < rule
      modifies this`delta, this`conflicts
      ensures RulesEntered(g, eps, delta, conflicts, done)
      ensures forall d :: d in done <==> d in done0 || (d.rule == rule && IsReason(g, d))
    {
      hide RulesEntered, DerivesEmpty, StartsWith, Follows, Usable;
      var r := g.rules[rule];
      UsableRule(g, eps, r);
      var firstA := First(r.rhs, nullable, first);
      done := EnterLetters(rule, false, firstA, done0);
      var isNullable := IsNullableRule(r.rhs, nullable);
      if isNullable {
        done := EnterLetters(rule, true, follow[r.lhs], done);
      }
      RuleReasons(g, rule, nullable, first, follow);
    }

    constructor (g: CFG, eps: Symbol)
      requires Usable(g, eps)
      ensures this.g == g && this.eps == eps && Valid()
    {
      this.g, this.eps := g, eps;
      delta, qFinal, conflicts := map[], Begin, 0;
      new;
      hide NullablesExact, FirstsExact, FollowsExact, RulesEntered, IsTable, IsLl1, Usable, Declared;
      UsableSets(g, eps);
      var nullable := FindNullables(g);
      NullableKeys(g, nullable);
      var first := FindFirsts(g, nullable);
      FirstKeys(g, nullable, first);
      var follow := FindFollows(g, nullable, first);
      FollowKeys(g, follow);
      EnterRules(nullable, first, follow);
      EnterTerminals();
      qFinal := Seen(g.eof);
    }

    method EnterRules(nullable: Nullables, first: SetMap, follow: SetMap)
      requires Usable(g, eps) && delta == map[] && conflicts == 0
      requires nullable.Keys == first.Keys == Symbols(g) && follow.Keys == g.nonTerminals
      requires NullablesExact(g, nullable) && FirstsExact(g, nullable, first) && FollowsExact(g, follow)
      modifies this`delta, this`conflicts
      ensures TerminalsEntered(g, eps, delta, {}) && (conflicts == 0 <==> IsLl1(g))
    {
      hide NullablesExact, FirstsExact, FollowsExact, RulesEntered, TerminalsEntered, IsLl1, IsReason, Usable;
      AddTransition(StartKey(eps), Move(Ready, [g.start]));
      StartEntered(g, eps, delta);
      ghost var done: set<Reason> := {};
      for i := 0 to |g.rules|
        invariant RulesEntered(g, eps, delta, conflicts, done)
        invariant forall d :: d in done <==> d.rule < i && IsReason(g, d)
      {
        done := EnterRule(i, nullable, first, follow, done);
      }
      ReasonsInRange(g);
      ConflictsDecideLl1(g, eps, delta, conflicts, done);
      RulesDone(g, eps, delta, conflicts, done);
    }

    method EnterTerminals()
      requires Usable(g, eps) && TerminalsEntered(g, eps, delta, {})
      modifies this`delta, this`conflicts
      ensures IsTable(g, eps, delta) && conflicts == old(conflicts)
    {
      hide TerminalsEntered, IsTable, Usable;
      var todo := g.terminals;
      assert g.terminals - todo == {};
      while todo != {}
        invariant todo <= g.terminals && TerminalsEntered(g, eps, delta, g.terminals - todo) && conflicts == old(conflicts)
      {
        var l :| l in todo;
        EnterTerminal(g, eps, delta, g.terminals - todo, l);
        AddTransition(ReadKey(eps, l), Move(Seen(l), []));
        if l != g.eof {
          AddTransition(TopKey(eps, l, l), Move(Ready, []));
        }
        assert g.terminals - (todo - {l}) == g.terminals - todo + {l};
        todo := todo - {l};
      }
      assert g.terminals - {} == g.terminals;
      TableDone(g, eps, delta);
    }

    /** Runs the machine, which has to halt, and records the productions: the word is read exactly when the
        machine's run ends at its end, the productions replay it, and without choices every word of the language is read. */
    method GenerateProductions(word: Word) returns (accepted: bool, productions: seq<Rule>)
      requires Valid() && Halts(g, eps, delta, word)
      ensures accepted <==> Reads(g, eps, delta, word)
      ensures accepted ==> Accepted(g, word) && word != [] && Replays(g, [g.start], productions, word[..|word| - 1])
      ensures OneRuleEach(g) ==> (accepted <==> Accepted(g, word))
    {
      hide AtStep, IsTable, IsLl1, OneRuleEach, Accepted, Candidate, StepTo, TopFirst, Replays, Usable, Reads, Halts, Letter, Top, RecordOf;
      var offset, stack, q, found := 0, [], Begin, true;
      productions := [];
      ghost var last := RunFirst(g, eps, delta, word);
      ghost var c, n: nat := Config(Begin, [], 0), 0;
      EmptyStack();
      while (q != qFinal || stack != []) && found
        invariant c == Config(q, TopFirst(stack), offset) && (stack == [] <==> c.stack == [])
        invariant AtStep(g, eps, delta, word, last, n, c, productions, found)
        decreases last - n, if found then 1 else 0
      {
        var key, q', stack', offset';
        found, key, q', stack', offset' := Round(delta, eps, word, q, stack, offset);
        if found {
          ghost var c' := Config(q', TopFirst(stack'), offset');
          CandidateState(delta, eps, word, c, key);
          RunNext(g, eps, delta, word, last, n, c, productions, c', key);
          if key.q == delta[key].q {
            productions := productions + [Rule(key.x, delta[key].w)];
          }
          c, n := c', n + 1;
          StackSizes(stack');
        } else {
          RunStuck(g, eps, delta, word, last, n, c, productions);
        }
        q, stack, offset := q', stack', offset';
      }
      accepted := q == qFinal && stack == [] && offset == |word|;
      RunLast(g, eps, delta, word, last, n, c, productions, found);
    }

    /** The same loop, for the answer alone. */
    method Recognize(word: Word) returns (accepted: bool)
      requires Valid() && Halts(g, eps, delta, word)
      ensures accepted <==> Reads(g, eps, delta, word)
      ensures accepted ==> Accepted(g, word)
      ensures OneRuleEach(g) ==> (accepted <==> Accepted(g, word))
    {
      var productions;
      accepted, productions := GenerateProductions(word);
    }

    /** A tree for every word that is read: rooted at the start symbol, built by the rules, spelling the word. */
    method Parse(word: Word) returns (tree: Option<ParseTree.Tree>)
      requires Valid() && Halts(g, eps, delta, word)
      ensures tree.Some? <==> Reads(g, eps, delta, word)
      ensures tree.Some? ==> Accepted(g, word)
      ensures OneRuleEach(g) ==> (tree.Some? <==> Accepted(g, word))
      ensures tree.Some? ==> word != [] && tree.value.value == g.start && ParseTree.FollowsRules(g, eps, tree.value)
                             && ParseTree.Frontier(eps, tree.value) == word[..|word| - 1]
    {
      hide IsTable, IsLl1, Replays, DerivesStar, Declared, ParseTree.FollowsRules, Halts, Reads, OneRuleEach;
      var accepted, productions := GenerateProductions(word);
      if !accepted {
        return None;
      }
      UsableTerminals(g, eps);
      forall l | l in word ensures l in g.terminals {
        var i :| 0 <= i < |word| && word[i] == l;
        assert i < |word| - 1 ==> l == word[..|word| - 1][i];
      }
      var t := ParseTree.MakeParseTree(g, eps, productions, word);
      tree := Some(t);
    }
  }

  /** The run after n steps, of at most `last`; once nothing more is found it is stuck. */
  ghost predicate AtStep(g: CFG, eps: Symbol, delta: Delta, word: Word, last: nat, n: nat, c: Config, rules: seq<Rule>, found: bool) {
    && StopsAfter(g, eps, delta, word, last) && AfterSteps(delta, eps, word, n) == Some(c) && n <= last && Running(g, word, c, rules)
    && (!found ==> StepTo(delta, eps, word, c) == None && !IsFinal(g, c) && (OneRuleEach(g) ==> !Accepted(g, word)))
  }

  lemma RunFirst(g: CFG, eps: Symbol, delta: Delta, word: Word) returns (last: nat)
    requires Halts(g, eps, delta, word)
    ensures AtStep(g, eps, delta, word, last, 0, Config(Begin, [], 0), [], true)
  {
    hide StopsAfter, Running;
    last :| StopsAfter(g, eps, delta, word, last);
    RunStart(g, word);
  }

  lemma RunNext(g: CFG, eps: Symbol, delta: Delta, word: Word, last: nat, n: nat, c: Config, rules: seq<Rule>, c': Config, k: Key)
    requires Usable(g, eps) && IsTable(g, eps, delta) && AtStep(g, eps, delta, word, last, n, c, rules, true) && !IsFinal(g, c)
    requires Candidate(delta, eps, c.q, Letter(word, c.offset, eps), Top(c.stack, eps)) == Some(k) && k in delta
    requires StepTo(delta, eps, word, c) == Some(c')
    ensures n < last && AtStep(g, eps, delta, word, last, n + 1, c', if k.q == delta[k].q then rules + [Rule(k.x, delta[k].w)] else rules, true)
  {
    hide StepTo, AfterSteps, Running, IsTable, OneRuleEach, Usable, Candidate, Accepted;
    NextAfter(delta, eps, word, n);
    RunStep(g, eps, delta, word, c, rules, c', k);
    SameRecord(k, delta[k], rules);
  }

  lemma RunStuck(g: CFG, eps: Symbol, delta: Delta, word: Word, last: nat, n: nat, c: Config, rules: seq<Rule>)
    requires Usable(g, eps) && IsTable(g, eps, delta) && AtStep(g, eps, delta, word, last, n, c, rules, true) && !IsFinal(g, c)
    requires StepTo(delta, eps, word, c) == None
    ensures AtStep(g, eps, delta, word, last, n, c, rules, false)
  {
    hide StepTo, AfterSteps, Running, IsTable, OneRuleEach, Usable, Accepted, StopsAfter;
    if OneRuleEach(g) {
      StuckRejects(g, eps, delta, word, c, rules);
    }
  }

  /** Where the loop ends, the configuration tells whether the word has been read. */
  lemma RunLast(g: CFG, eps: Symbol, delta: Delta, word: Word, last: nat, n: nat, c: Config, rules: seq<Rule>, found: bool)
    requires Usable(g, eps) && IsTable(g, eps, delta) && AtStep(g, eps, delta, word, last, n, c, rules, found) && (found ==> IsFinal(g, c))
    ensures Reads(g, eps, delta, word) <==> IsFinal(g, c) && c.offset == |word|
    ensures Reads(g, eps, delta, word) ==> Accepted(g, word) && word != [] && Replays(g, [g.start], rules, word[..|word| - 1])
    ensures OneRuleEach(g) ==> (Reads(g, eps, delta, word) <==> Accepted(g, word))
  {
    hide StepTo, AfterSteps, Running, IsTable, OneRuleEach, Usable, Accepted, Reads, Replays;
    StopDecides(g, eps, delta, word, n);
    if IsFinal(g, c) {
      RunEnd(g, word, c, rules);
    }
  }

  lemma UsableTerminals(g: CFG, eps: Symbol)
    requires Usable(g, eps)
    ensures g.Valid() && g.eof in g.terminals && eps !in g.terminals && g.terminals !! g.nonTerminals
  {
    hide DerivesStar;
  }

  /** The parser of a grammar; null stands for the exception on overlapping terminals and nonterminals. */
  method CreateParser(g: CFG, eps: Symbol) returns (p: LlParser?)
    requires Declared(g) && eps !in Symbols(g)
    ensures p == null <==> !(g.terminals !! g.nonTerminals)
    ensures p != null ==> fresh(p) && p.g == g && p.eps == eps && p.Valid()
  {
    hide IsTable, IsLl1;
    if !(g.terminals !! g.nonTerminals) {
      return null;
    }
    p := new LlParser(g, eps);
  }

  lemma EmptyStack()
    ensures TopFirst([]) == []
  {
  }

  lemma StackSizes(stack: seq<Symbol>)
    ensures stack == [] <==> TopFirst(stack) == []
  {
  }

  lemma SameRecord(k: Key, m: Move, rules: seq<Rule>)
    ensures k.q != m.q ==> rules + RecordOf(k, m) == rules
  {
    assert rules + [] == rules;
  }

  lemma UsableRule(g: CFG, eps: Symbol, r: Rule)
    requires Usable(g, eps) && r in g.rules
    ensures Declared(g) && r.lhs in g.nonTerminals && forall s :: s in r.rhs ==> s in Symbols(g)
  {
  }

  lemma UsableSets(g: CFG, eps: Symbol)
    requires Usable(g, eps)
    ensures Declared(g) && g.eof !in g.nonTerminals
  {
  }

  lemma NullableKeys(g: CFG, nullable: Nullables)
    requires NullablesExact(g, nullable)
    ensures nullable.Keys == Symbols(g)
  {
  }

  lemma FirstKeys(g: CFG, nullable: Nullables, first: SetMap)
    requires FirstsExact(g, nullable, first)
    ensures first.Keys == nullable.Keys == Symbols(g)
  {
  }

  lemma FollowKeys(g: CFG, follow: SetMap)
    requires FollowsExact(g, follow)
    ensures follow.Keys == g.nonTerminals
  {
  }

  lemma ReasonsInRange(g: CFG)
    ensures forall d :: IsReason(g, d) ==> d.rule < |g.rules|
  {
  }

  /** The letters the sets give for a rule are exactly its reasons. */
  lemma RuleReasons(g: CFG, rule: nat, nullable: Nullables, first: SetMap, follow: SetMap)
    requires Declared(g) && rule < |g.rules| && nullable.Keys == first.Keys == Symbols(g) && follow.Keys == g.nonTerminals
    requires NullablesExact(g, nullable) && FirstsExact(g, nullable, first) && FollowsExact(g, follow)
    ensures forall l :: l in FirstOfWord(g.rules[rule].rhs, nullable, first) <==> IsReason(g, Reason(rule, false, l))
    ensures forall l :: NullableWord(g.rules[rule].rhs, nullable) && l in follow[g.rules[rule].lhs] <==> IsReason(g, Reason(rule, true, l))
  {
    hide DerivesEmpty, StartsWith, Follows;
    assert DeclaredWord(g, g.rules[rule].rhs);
  }

  lemma StartEntered(g: CFG, eps: Symbol, delta: Delta)
    requires delta == map[StartKey(eps) := Move(Ready, [g.start])]
    ensures RulesEntered(g, eps, delta, 0, {})
  {
  }
}