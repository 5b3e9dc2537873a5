/** The LL(1) parser: its table, what its runs derive, and when they halt. */
module Ll1 {
  import opened Words
  import opened Grammar
  import opened CfgSets
  import opened Dpda

  // ---------- the table ----------

  /** What the parser asks of a grammar: declared symbols, terminals apart from nonterminals, epsilon reserved. */
  predicate Usable(g: CFG, eps: Symbol) {
    Declared(g) && g.terminals !! g.nonTerminals && eps !in Symbols(g)
  }

  /** The reasons to choose rule r on the letter l: l can start the right side,
      or the right side can vanish and l can follow. */
  ghost predicate Predicts(g: CFG, r: Rule, l: Symbol) {
    StartsWith(g, r.rhs, l) || (DerivesEmpty(g, r.rhs) && Follows(g, r.lhs, l))
  }

  function StartKey(eps: Symbol): Key { Key(Begin, eps, eps) }
  function ReadKey(eps: Symbol, l: Symbol): Key { Key(Ready, l, eps) }
  function TopKey(eps: Symbol, l: Symbol, x: Symbol): Key { Key(Seen(l), eps, x) }

  /** The entries the constructor makes; a rule entry holds one of the rules predicted for its key. */
  ghost predicate EntryOk(g: CFG, eps: Symbol, k: Key, m: Move) {
    match k.q
    case Begin => k == StartKey(eps) && m == Move(Ready, [g.start])
    case Ready => k == ReadKey(eps, k.a) && k.a in g.terminals && m == Move(Seen(k.a), [])
    case Seen(l) =>
      && k == TopKey(eps, l, k.x)
      && if k.x in g.terminals then k.x == l && l != g.eof && m == Move(Ready, [])
         else exists r :: r in g.rules && r.lhs == k.x && Predicts(g, r, l) && m == Move(Seen(l), r.rhs)
  }

  ghost predicate IsTable(g: CFG, eps: Symbol, delta: Delta) {
    && (forall k {:trigger delta[k]} :: k in delta ==> EntryOk(g, eps, k, delta[k]))
    && StartKey(eps) in delta
    && (forall l {:trigger ReadKey(eps, l)} :: l in g.terminals ==> ReadKey(eps, l) in delta)
    && (forall l {:trigger TopKey(eps, l, l)} :: l in g.terminals && l != g.eof ==> TopKey(eps, l, l) in delta)
    && (forall r, l {:trigger Predicts(g, r, l)} :: r in g.rules && Predicts(g, r, l) ==> TopKey(eps, l, r.lhs) in delta)
  }

  /** No two entries compete for a key: at most one rule, for at most one reason. */
  ghost predicate IsLl1(g: CFG) {
    && (forall i, j, l {:trigger Predicts(g, g.rules[i], l), Predicts(g, g.rules[j], l)} ::
          0 <= i < j < |g.rules| && g.rules[i].lhs == g.rules[j].lhs ==> !(Predicts(g, g.rules[i], l) && Predicts(g, g.rules[j], l)))
    && (forall i, l {:trigger StartsWith(g, g.rules[i].rhs, l)} ::
          0 <= i < |g.rules| ==> !(StartsWith(g, g.rules[i].rhs, l) && DerivesEmpty(g, g.rules[i].rhs) && Follows(g, g.rules[i].lhs, l)))
  }

  /** No letter can choose between different rules; a rule that is written twice, or has two reasons, does no harm. */
  ghost predicate OneRuleEach(g: CFG) {
    forall r, q, l {:trigger Predicts(g, r, l), Predicts(g, q, l)} ::
      r in g.rules && q in g.rules && r.lhs == q.lhs && Predicts(g, r, l) && Predicts(g, q, l) ==> r == q
  }

  lemma Ll1HasOneRuleEach(g: CFG)
    requires IsLl1(g)
    ensures OneRuleEach(g)
  {
    hide Predicts, StartsWith, DerivesEmpty, Follows;
    forall r, q, l | r in g.rules && q in g.rules && r.lhs == q.lhs && Predicts(g, r, l) && Predicts(g, q, l) ensures r == q {
      var i :| 0 <= i < |g.rules| && g.rules[i] == r;
      var j :| 0 <= j < |g.rules| && g.rules[j] == q;
      assert Predicts(g, g.rules[i], l) && Predicts(g, g.rules[j], l);
    }
  }

  /** Where no letter has a choice, a rule with a reason is the rule in the table. */
  lemma TheRule(g: CFG, eps: Symbol, delta: Delta, r: Rule, l: Symbol)
    requires Usable(g, eps) && IsTable(g, eps, delta) && OneRuleEach(g) && r in g.rules && Predicts(g, r, l)
    ensures TopKey(eps, l, r.lhs) in delta && delta[TopKey(eps, l, r.lhs)] == Move(Seen(l), r.rhs)
  {
    hide Predicts, StartsWith, DerivesEmpty, Follows;
    var k := TopKey(eps, l, r.lhs);
    assert EntryOk(g, eps, k, delta[k]);
    var q :| q in g.rules && q.lhs == k.x && Predicts(g, q, l) && delta[k] == Move(Seen(l), q.rhs);
  }

  // ---------- the steps of the machine ----------

  ghost predicate StackOk(g: CFG, stack: Word) {
    forall s :: s in stack ==> s in Symbols(g)
  }

  lemma BeginStep(g: CFG, eps: Symbol, delta: Delta, word: Word, c: Config)
    requires Usable(g, eps) && IsTable(g, eps, delta) && c == Config(Begin, [], 0)
    ensures StepTo(delta, eps, word, c) == Some(Config(Ready, [g.start], 0))
  {
    hide Predicts;
    var l := Letter(word, 0, eps);
    if Key(Begin, l, eps) in delta {
      assert EntryOk(g, eps, Key(Begin, l, eps), delta[Key(Begin, l, eps)]);
    }
    assert EntryOk(g, eps, StartKey(eps), delta[StartKey(eps)]);
    assert [g.start] + [] == [g.start];
  }

  lemma ReadyStep(g: CFG, eps: Symbol, delta: Delta, word: Word, c: Config)
    requires Usable(g, eps) && IsTable(g, eps, delta) && c.q == Ready && StackOk(g, c.stack) && c.offset <= |word|
    ensures StepTo(delta, eps, word, c) ==
      if c.offset < |word| && word[c.offset] in g.terminals then Some(Config(Seen(word[c.offset]), c.stack, c.offset + 1)) else None
  {
    hide Predicts;
    var l, s := Letter(word, c.offset, eps), Top(c.stack, eps);
    forall a, x | Key(Ready, a, x) in delta ensures x == eps && a in g.terminals && delta[Key(Ready, a, x)] == Move(Seen(a), []) {
      assert EntryOk(g, eps, Key(Ready, a, x), delta[Key(Ready, a, x)]);
    }
    if l in g.terminals {
      assert ReadKey(eps, l) in delta;
      assert s != eps ==> Key(Ready, l, s) !in delta;
      assert Candidate(delta, eps, Ready, l, s) == Some(ReadKey(eps, l));
      assert [] + c.stack == c.stack;
    } else {
      assert Candidate(delta, eps, Ready, l, s) == None;
    }
  }

  /** In a state that remembers l: pop l, or replace the top by a right side, or stop. */
  ghost predicate SeenOutcome(g: CFG, eps: Symbol, delta: Delta, c: Config, l: Symbol, next: Option<Config>) {
    if c.stack == [] then next == None
    else if c.stack[0] in g.terminals then
      next == if c.stack[0] == l && l != g.eof then Some(Config(Ready, c.stack[1..], c.offset)) else None
    else if TopKey(eps, l, c.stack[0]) in delta then
      next == Some(Config(Seen(l), delta[TopKey(eps, l, c.stack[0])].w + c.stack[1..], c.offset))
    else next == None
  }

  lemma SeenStep(g: CFG, eps: Symbol, delta: Delta, word: Word, c: Config, l: Symbol)
    requires Usable(g, eps) && IsTable(g, eps, delta) && c.q == Seen(l) && l in g.terminals && StackOk(g, c.stack)
    ensures SeenOutcome(g, eps, delta, c, l, StepTo(delta, eps, word, c))
  {
    hide Predicts;
    var a, s := Letter(word, c.offset, eps), Top(c.stack, eps);
    forall b, x | Key(Seen(l), b, x) in delta
      ensures b == eps && x != eps && (x in g.terminals ==> x == l && l != g.eof && delta[Key(Seen(l), b, x)] == Move(Ready, []))
      ensures x !in g.terminals ==> delta[Key(Seen(l), b, x)].q == Seen(l)
    {
      var k := Key(Seen(l), b, x);
      assert EntryOk(g, eps, k, delta[k]);
      if x !in g.terminals {
        var r :| r in g.rules && r.lhs == k.x && Predicts(g, r, l) && delta[k] == Move(Seen(l), r.rhs);
      }
    }
    if c.stack == [] {
      assert Candidate(delta, eps, c.q, a, s) == None;
    } else {
      assert s in c.stack;
      assert Candidate(delta, eps, c.q, a, s) == if TopKey(eps, l, s) in delta then Some(TopKey(eps, l, s)) else None;
      assert s in g.terminals && s == l && l != g.eof ==> TopKey(eps, l, l) in delta;
      assert [] + c.stack[1..] == c.stack[1..];
    }
  }

  // ---------- soundness: what was read and the stack form a sentential form ----------

  ghost predicate Letters(g: CFG, w: Word) {
    forall l :: l in w ==> l in g.terminals && l != g.eof
  }

  /** `read` letters are matched; with the stack they are derivable from the start symbol. */
  ghost predicate Form(g: CFG, word: Word, matched: nat, stack: Word) {
    matched <= |word| && Letters(g, word[..matched]) && StackOk(g, stack) && DerivesStar(g, [g.start], word[..matched] + stack)
  }

  ghost predicate Sentential(g: CFG, word: Word, c: Config) {
    match c.q
    case Begin => c.stack == [] && c.offset == 0
    case Ready => Form(g, word, c.offset, c.stack)
    case Seen(l) => 1 <= c.offset <= |word| && word[c.offset - 1] == l && l in g.terminals && Form(g, word, c.offset - 1, c.stack)
  }

  /** Replacing the top of the stack by a right side. */
  lemma ExpandForm(g: CFG, word: Word, matched: nat, stack: Word, r: Rule)
    requires Declared(g) && Form(g, word, matched, stack) && stack != [] && r in g.rules && r.lhs == stack[0]
    ensures Form(g, word, matched, r.rhs + stack[1..])
  {
    hide Derives;
    var u, rest := word[..matched], stack[1..];
    var n: nat :| Derives(g, [g.start], u + stack, n);
    NoDerivation(g, r.rhs, r.rhs);
    RuleStep(g, r, r.rhs, 0);
    DerivesInContext(g, u, [r.lhs], r.rhs, rest, 1);
    assert u + [r.lhs] + rest == u + stack && u + r.rhs + rest == u + (r.rhs + rest);
    DerivesTransitive(g, [g.start], u + stack, u + (r.rhs + rest), n, 1);
  }

  lemma PopForm(g: CFG, word: Word, matched: nat, stack: Word)
    requires Form(g, word, matched, stack) && stack != [] && matched < |word| && word[matched] == stack[0]
    requires stack[0] in g.terminals && stack[0] != g.eof
    ensures Form(g, word, matched + 1, stack[1..])
  {
    hide DerivesStar;
    assert word[..matched + 1] == word[..matched] + [stack[0]];
    assert word[..matched + 1] + stack[1..] == word[..matched] + stack;
  }

  lemma TableRule(g: CFG, eps: Symbol, delta: Delta, l: Symbol, x: Symbol) returns (r: Rule)
    requires IsTable(g, eps, delta) && TopKey(eps, l, x) in delta && x !in g.terminals
    ensures r in g.rules && r.lhs == x && Predicts(g, r, l) && delta[TopKey(eps, l, x)] == Move(Seen(l), r.rhs)
  {
    hide Predicts;
    var k := TopKey(eps, l, x);
    assert EntryOk(g, eps, k, delta[k]);
    r :| r in g.rules && r.lhs == k.x && Predicts(g, r, l) && delta[k] == Move(Seen(l), r.rhs);
  }

  /** Every step of every run keeps the sentential form, for any grammar, conflicts or not. */
  lemma StepKeepsForm(g: CFG, eps: Symbol, delta: Delta, word: Word, c: Config, c': Config)
    requires Usable(g, eps) && IsTable(g, eps, delta) && Sentential(g, word, c) && StepTo(delta, eps, word, c) == Some(c')
    ensures Sentential(g, word, c')
  {
    hide Form, IsTable, StepTo, Derives;
    match c.q {
      case Begin =>
        BeginStep(g, eps, delta, word, c);
        StartForm(g, word);
      case Ready =>
        FormStack(g, word, c.offset, c.stack);
        ReadyStep(g, eps, delta, word, c);
      case Seen(l) =>
        FormStack(g, word, c.offset - 1, c.stack);
        SeenStep(g, eps, delta, word, c, l);
        if c'.q == Ready {
          PopForm(g, word, c.offset - 1, c.stack);
        } else {
          var r := TableRule(g, eps, delta, l, c.stack[0]);
          ExpandForm(g, word, c.offset - 1, c.stack, r);
        }
    }
  }

  lemma FormStack(g: CFG, word: Word, matched: nat, stack: Word)
    requires Form(g, word, matched, stack)
    ensures StackOk(g, stack) && matched <= |word|
  {
  }

  lemma StartForm(g: CFG, word: Word)
    requires g.Valid()
    ensures Form(g, word, 0, [g.start])
  {
    assert word[..0] + [g.start] == [g.start];
    NoDerivation(g, [g.start], [g.start]);
  }

  // ---------- the words the parser is for ----------

  /** A word of the language without the end marker, followed by the end marker. */
  ghost predicate Accepted(g: CFG, word: Word) {
    && word != [] && word[|word| - 1] == g.eof && Letters(g, word[..|word| - 1])
    && DerivesStar(g, [g.start], word[..|word| - 1])
  }

  predicate IsFinal(g: CFG, c: Config) {
    c.q == Seen(g.eof) && c.stack == []
  }

  lemma FinalIsAccepted(g: CFG, word: Word, c: Config)
    requires Sentential(g, word, c) && IsFinal(g, c) && c.offset == |word|
    ensures Accepted(g, word)
  {
    hide DerivesStar;
    assert word[..|word| - 1] + [] == word[..|word| - 1];
  }

  /** The configuration after n steps, if the machine gets that far. */
  ghost function AfterSteps(delta: Delta, eps: Symbol, word: Word, n: nat): Option<Config> {
    if n == 0 then Some(Config(Begin, [], 0))
    else match AfterSteps(delta, eps, word, n - 1)
      case None => None
      case Some(c) => StepTo(delta, eps, word, c)
  }

  /** Soundness over whole runs, for any grammar: conflicts in the table never make it accept too much. */
  lemma EveryRunIsSound(g: CFG, eps: Symbol, delta: Delta, word: Word, n: nat)
    requires Usable(g, eps) && IsTable(g, eps, delta) && AfterSteps(delta, eps, word, n).Some?
    ensures var c := AfterSteps(delta, eps, word, n).value;
      Sentential(g, word, c) && (IsFinal(g, c) && c.offset == |word| ==> Accepted(g, word))
  {
    hide Sentential, IsTable, StepTo, Accepted;
    var c := AfterSteps(delta, eps, word, n).value;
    if n == 0 {
      StartIsSentential(g, word);
    } else {
      EveryRunIsSound(g, eps, delta, word, n - 1);
      StepKeepsForm(g, eps, delta, word, AfterSteps(delta, eps, word, n - 1).value, c);
    }
    if IsFinal(g, c) && c.offset == |word| {
      FinalIsAccepted(g, word, c);
    }
  }

  lemma StartIsSentential(g: CFG, word: Word)
    ensures Sentential(g, word, Config(Begin, [], 0))
  {
  }

  // ---------- completeness: the stack derives what is still to be read ----------

  ghost predicate Tracks(g: CFG, word: Word, c: Config)
    requires word != []
  {
    match c.q
    case Begin => true
    case Ready => c.offset < |word| && DerivesStar(g, c.stack, word[c.offset..|word| - 1])
    case Seen(l) => 1 <= c.offset <= |word| && DerivesStar(g, c.stack, word[c.offset - 1..|word| - 1])
  }

  /** Something that the stack below x starts with follows x. */
  lemma FollowsInForm(g: CFG, word: Word, matched: nat, stack: Word, l: Symbol, w: Word, n: nat)
    requires Form(g, word, matched, stack) && stack != [] && l in g.terminals
    requires Derives(g, stack[1..] + [g.eof], [l] + w, n)
    ensures Follows(g, stack[0], l)
  {
    hide Derives;
    var u := word[..matched];
    var m: nat :| Derives(g, [g.start], u + stack, m);
    DerivesInContext(g, [], [g.start], u + stack, [g.eof], m);
    assert [] + [g.start] + [g.eof] == [g.start, g.eof];
    var v := u + [stack[0]];
    DerivesInContext(g, v, stack[1..] + [g.eof], [l] + w, [], n);
    assert [] + (u + stack) + [g.eof] == v + (stack[1..] + [g.eof]) + [];
    DerivesTransitive(g, [g.start, g.eof], v + (stack[1..] + [g.eof]) + [], v + ([l] + w) + [], m, n);
    assert v + ([l] + w) + [] == u + [stack[0]] + [l] + w;
    RootFollows(g, [g.start, g.eof], stack[0], l, u, w, m + n);
  }

  /** If the stack derives `goal`, and `goal` with the end marker starts with l, then the table's rule for
      the top of the stack is the first rule of that derivation. */
  lemma TableFollowsDerivation(g: CFG, eps: Symbol, delta: Delta, word: Word, matched: nat, stack: Word, l: Symbol, goal: Word, n: nat)
    returns (m: nat)
    requires Usable(g, eps) && IsTable(g, eps, delta) && OneRuleEach(g) && Form(g, word, matched, stack) && l in g.terminals
    requires stack != [] && stack[0] !in g.terminals && Derives(g, stack, goal, n) && (goal + [g.eof])[0] == l
    ensures n == m + 1 && TopKey(eps, l, stack[0]) in delta
    ensures Derives(g, delta[TopKey(eps, l, stack[0])].w + stack[1..], goal, m)
  {
    hide Derives, IsTable, OneRuleEach, Form, StartsWith, DerivesEmpty, Follows;
    var x, rest := stack[0], stack[1..];
    assert [x] + rest == stack;
    var y, z, a, b := Split(g, [x], rest, goal, n);
    assert y != [] ==> (goal + [g.eof])[0] == y[0];
    if a == 0 {
      NoDerivation(g, [x], y);
      assert false;
    }
    var r := SymbolStep(g, x, y, a);
    if y != [] {
      assert y[0] == goal[0] == l && y == [l] + y[1..];
      StartsWithWitness(g, r.rhs, l, y[1..], a - 1);
    } else {
      assert z == goal;
      DerivesInContext(g, [], rest, goal, [g.eof], b);
      assert [] + rest + [g.eof] == rest + [g.eof] && [] + goal + [g.eof] == goal + [g.eof] == [l] + (goal + [g.eof])[1..];
      FollowsInForm(g, word, matched, stack, l, (goal + [g.eof])[1..], b);
      EmptyWitness(g, r.rhs, a - 1);
    }
    TheRule(g, eps, delta, r, l);
    DerivesConcat(g, r.rhs, y, a - 1, rest, z, b);
    m := a - 1 + b;
  }

  lemma StartsWithWitness(g: CFG, w: Word, l: Symbol, rest: Word, n: nat)
    requires l in g.terminals && Derives(g, w, [l] + rest, n)
    ensures StartsWith(g, w, l)
  {
    assert DerivesStar(g, w, [l] + rest);
  }

  lemma EmptyWitness(g: CFG, w: Word, n: nat)
    requires Derives(g, w, [], n)
    ensures DerivesEmpty(g, w)
  {
  }

  /** On an acceptable word the machine is never stuck before the end, and the stack keeps deriving the rest. */
  lemma StepKeepsTrack(g: CFG, eps: Symbol, delta: Delta, word: Word, c: Config) returns (c': Config)
    requires Usable(g, eps) && IsTable(g, eps, delta) && OneRuleEach(g) && Accepted(g, word)
    requires Sentential(g, word, c) && Tracks(g, word, c) && !IsFinal(g, c)
    ensures StepTo(delta, eps, word, c) == Some(c') && Tracks(g, word, c')
  {
    hide Form, IsTable, StepTo, OneRuleEach, Derives;
    match c.q {
      case Begin =>
        BeginStep(g, eps, delta, word, c);
        c' := Config(Ready, [g.start], 0);
        assert word[0..|word| - 1] == word[..|word| - 1];
      case Ready =>
        FormStack(g, word, c.offset, c.stack);
        ReadyStep(g, eps, delta, word, c);
        assert c.offset < |word| - 1 ==> word[c.offset] == word[..|word| - 1][c.offset];
        c' := Config(Seen(word[c.offset]), c.stack, c.offset + 1);
      case Seen(l) =>
        FormStack(g, word, c.offset - 1, c.stack);
        SeenStep(g, eps, delta, word, c, l);
        c' := TrackSeen(g, eps, delta, word, c, l);
    }
  }

  lemma TrackSeen(g: CFG, eps: Symbol, delta: Delta, word: Word, c: Config, l: Symbol) returns (c': Config)
    requires Usable(g, eps) && IsTable(g, eps, delta) && OneRuleEach(g) && Accepted(g, word)
    requires Sentential(g, word, c) && Tracks(g, word, c) && !IsFinal(g, c) && c.q == Seen(l)
    requires SeenOutcome(g, eps, delta, c, l, StepTo(delta, eps, word, c))
    ensures StepTo(delta, eps, word, c) == Some(c') && Tracks(g, word, c')
  {
    hide Form, IsTable, StepTo, OneRuleEach, Derives;
    var i := c.offset - 1;
    var goal := word[i..|word| - 1];
    var n: nat :| Derives(g, c.stack, goal, n);
    assert (goal + [g.eof])[0] == l;
    assert |goal| == |word| - 1 - i && (goal == [] ==> word[i] == g.eof);
    if c.stack == [] {
      EmptyDerives(g, goal, n);
      assert false;
    }
    var x := c.stack[0];
    if x in g.terminals {
      TerminalOnTop(g, c.stack, goal, n);
      assert i < |word| - 1 ==> word[i] == word[..|word| - 1][i];
      assert goal[1..] == word[c.offset..|word| - 1];
      c' := Config(Ready, c.stack[1..], c.offset);
    } else {
      var m := TableFollowsDerivation(g, eps, delta, word, i, c.stack, l, goal, n);
      c' := Config(Seen(l), delta[TopKey(eps, l, x)].w + c.stack[1..], c.offset);
    }
  }

  /** A terminal on top of the stack is the first letter of what the stack derives. */
  lemma TerminalOnTop(g: CFG, stack: Word, goal: Word, n: nat)
    requires Declared(g) && g.terminals !! g.nonTerminals && stack != [] && stack[0] in g.terminals && Derives(g, stack, goal, n)
    ensures goal != [] && goal[0] == stack[0] && DerivesStar(g, stack[1..], goal[1..])
  {
    hide Derives;
    assert [stack[0]] + stack[1..] == stack;
    var y, z, a, b := Split(g, [stack[0]], stack[1..], goal, n);
    TerminalDerives(g, stack[0], y, a);
    assert goal[1..] == z;
  }

  // ---------- halting ----------

  /** Why the machine cannot stay in Seen(l) for ever: it follows a derivation of n steps up to the letter l,
      or it erases all but the lowest `below` symbols of the stack, of which it has n steps left to do. */
  datatype Plan = Idle | Matching(n: nat) | Erasing(below: nat, n: nat)

  ghost predicate Erases(g: CFG, l: Symbol, upper: Word, n: nat) {
    Derives(g, upper, [], n) && (upper == [] || exists x :: Follows(g, x, l) && DerivesStar(g, [x], upper))
  }

  ghost predicate PlanOk(g: CFG, c: Config, plan: Plan) {
    match c.q
    case Begin => true
    case Ready => true
    case Seen(l) =>
      match plan
      case Idle => false
      case Matching(n) => exists w :: Derives(g, c.stack, [l] + w, n)
      case Erasing(below, n) => below <= |c.stack| && !StartsWith(g, c.stack, l) && Erases(g, l, c.stack[..|c.stack| - below], n)
  }

  function Rank(word: Word, c: Config, plan: Plan): (r: (nat, nat, nat, nat)) {
    (if c.q == Begin then |word| + 1 else if c.offset <= |word| then |word| - c.offset else 0,
     if c.q.Seen? then 1 else 0,
     if plan.Erasing? then plan.below else 0,
     if plan.Idle? then 0 else plan.n)
  }

  predicate Less(a: (nat, nat, nat, nat), b: (nat, nat, nat, nat)) {
    a.0 < b.0 || (a.0 == b.0 && (a.1 < b.1 || (a.1 == b.1 && (a.2 < b.2 || (a.2 == b.2 && a.3 < b.3)))))
  }

  lemma ChoosePlan(g: CFG, word: Word, c: Config, l: Symbol) returns (plan: Plan)
    requires l in g.terminals && c.q == Seen(l)
    ensures PlanOk(g, c, plan)
  {
    hide Derives;
    if StartsWith(g, c.stack, l) {
      var w :| DerivesStar(g, c.stack, [l] + w);
      var n: nat :| Derives(g, c.stack, [l] + w, n);
      plan := Matching(n);
    } else {
      plan := Erasing(|c.stack|, 0);
      NoDerivation(g, [], []);
      assert c.stack[..0] == [];
    }
  }

  lemma PlanMatching(g: CFG, eps: Symbol, delta: Delta, word: Word, c: Config, l: Symbol, n: nat) returns (m: nat)
    requires Usable(g, eps) && IsTable(g, eps, delta) && OneRuleEach(g) && Sentential(g, word, c) && c.q == Seen(l)
    requires PlanOk(g, c, Matching(n)) && c.stack != [] && c.stack[0] !in g.terminals
    ensures n == m + 1 && TopKey(eps, l, c.stack[0]) in delta
    ensures PlanOk(g, Config(Seen(l), delta[TopKey(eps, l, c.stack[0])].w + c.stack[1..], c.offset), Matching(m))
  {
    hide Form, IsTable, OneRuleEach, Derives;
    var w :| Derives(g, c.stack, [l] + w, n);
    assert ([l] + w + [g.eof])[0] == l;
    m := TableFollowsDerivation(g, eps, delta, word, c.offset - 1, c.stack, l, [l] + w, n);
  }

  /** One rewriting of the top cannot make a letter appear in front. */
  lemma StillNotStarting(g: CFG, stack: Word, r: Rule, l: Symbol)
    requires stack != [] && r in g.rules && r.lhs == stack[0] && !StartsWith(g, stack, l)
    ensures !StartsWith(g, r.rhs + stack[1..], l)
  {
    hide Derives;
    if StartsWith(g, r.rhs + stack[1..], l) {
      var w :| DerivesStar(g, r.rhs + stack[1..], [l] + w);
      var n: nat :| Derives(g, r.rhs + stack[1..], [l] + w, n);
      NoDerivation(g, r.rhs, r.rhs);
      RuleStep(g, r, r.rhs, 0);
      DerivesInContext(g, [], [r.lhs], r.rhs, stack[1..], 1);
      assert [] + [r.lhs] + stack[1..] == stack && [] + r.rhs + stack[1..] == r.rhs + stack[1..];
      DerivesTransitive(g, stack, r.rhs + stack[1..], [l] + w, 1, n);
    }
  }

  /** Erasing starts on a fresh symbol: its table rule must be one that vanishes. */
  lemma EraseNext(g: CFG, l: Symbol, stack: Word, r: Rule) returns (n: nat)
    requires Declared(g) && stack != [] && r in g.rules && r.lhs == stack[0] && Predicts(g, r, l) && !StartsWith(g, stack, l)
    ensures Erases(g, l, r.rhs, n)
  {
    hide Derives;
    assert [r.lhs] + stack[1..] == stack;
    if StartsWith(g, r.rhs, l) {
      RuleStartsWith(g, r, l);
      StartsWithMore(g, [r.lhs], stack[1..], l);
    }
    n :| Derives(g, r.rhs, [], n);
    NoDerivation(g, r.rhs, r.rhs);
    RuleStep(g, r, r.rhs, 0);
    assert DerivesStar(g, [r.lhs], r.rhs);
  }

  /** Within an erasure the table's rule is the first rule of the erasing derivation. */
  lemma EraseMore(g: CFG, eps: Symbol, delta: Delta, l: Symbol, upper: Word, n: nat) returns (m: nat)
    requires Usable(g, eps) && IsTable(g, eps, delta) && OneRuleEach(g) && upper != [] && Erases(g, l, upper, n)
    ensures n == m + 1 && TopKey(eps, l, upper[0]) in delta && Erases(g, l, delta[TopKey(eps, l, upper[0])].w + upper[1..], m)
  {
    hide Derives, IsTable, OneRuleEach, Follows;
    var x, rest := upper[0], upper[1..];
    assert [x] + rest == upper;
    var y, z, a, b := Split(g, [x], rest, [], n);
    assert y == [] && z == [];
    if a == 0 {
      NoDerivation(g, [x], []);
      assert false;
    }
    var r := SymbolStep(g, x, [], a);
    EmptyWitness(g, r.rhs, a - 1);
    var root :| Follows(g, root, l) && DerivesStar(g, [root], upper);
    FollowsThroughErasure(g, root, l, x, rest, b);
    TheRule(g, eps, delta, r, l);
    DerivesConcat(g, r.rhs, [], a - 1, rest, [], b);
    var e: Word := [];
    assert e + e == e;
    m := a - 1 + b;
    var k: nat :| Derives(g, [root], upper, k);
    NoDerivation(g, r.rhs, r.rhs);
    RuleStep(g, r, r.rhs, 0);
    DerivesInContext(g, [], [x], r.rhs, rest, 1);
    assert [] + [x] + rest == upper && [] + r.rhs + rest == r.rhs + rest;
    DerivesTransitive(g, [root], upper, r.rhs + rest, k, 1);
  }

  lemma FollowsThroughErasure(g: CFG, root: Symbol, l: Symbol, x: Symbol, rest: Word, b: nat)
    requires Follows(g, root, l) && DerivesStar(g, [root], [x] + rest) && Derives(g, rest, [], b)
    ensures Follows(g, x, l)
  {
    hide Derives, Follows;
    var k: nat :| Derives(g, [root], [x] + rest, k);
    DerivesInContext(g, [x], rest, [], [], b);
    assert [x] + rest + [] == [x] + rest && [x] + [] + [] == [x];
    DerivesTransitive(g, [root], [x] + rest, [x], k, b);
    FollowsThrough(g, root, l, x, k + b);
  }

  lemma FollowsThrough(g: CFG, root: Symbol, l: Symbol, x: Symbol, k: nat)
    requires Follows(g, root, l) && Derives(g, [root], [x], k)
    ensures Follows(g, x, l)
  {
    hide Derives, Follows;
    FollowsTerminal(g, root, l);
    var w, u, v, n := FollowsRoot(g, root, l);
    DerivesInContext(g, u, [root], [x], [l] + v, k);
    MoveTail(u, [root], l, v);
    MoveTail(u, [x], l, v);
    DerivesTransitive(g, w, u + [root] + [l] + v, u + [x] + [l] + v, n, k);
    RootFollows(g, w, x, l, u, v, n + k);
  }

  lemma PlanErasing(g: CFG, eps: Symbol, delta: Delta, c: Config, l: Symbol, below: nat, n: nat) returns (plan: Plan)
    requires Usable(g, eps) && IsTable(g, eps, delta) && OneRuleEach(g) && c.q == Seen(l)
    requires PlanOk(g, c, Erasing(below, n)) && c.stack != [] && c.stack[0] !in g.terminals && TopKey(eps, l, c.stack[0]) in delta
    ensures PlanOk(g, Config(Seen(l), delta[TopKey(eps, l, c.stack[0])].w + c.stack[1..], c.offset), plan)
    ensures plan.Erasing? && (plan.below < below || (plan.below == below && plan.n < n))
  {
    hide IsTable, OneRuleEach, Erases, StartsWith, Predicts;
    var x, rest := c.stack[0], c.stack[1..];
    var r := TableRule(g, eps, delta, l, x);
    StillNotStarting(g, c.stack, r, l);
    var upper := c.stack[..|c.stack| - below];
    if upper == [] {
      var m := EraseNext(g, l, c.stack, r);
      plan := Erasing(below - 1, m);
      assert (r.rhs + rest)[..|r.rhs + rest| - (below - 1)] == r.rhs;
    } else {
      var m := EraseMore(g, eps, delta, l, upper, n);
      plan := Erasing(below, m);
      assert (r.rhs + rest)[..|r.rhs + rest| - below] == r.rhs + upper[1..];
    }
  }

  /** Every step from a sensible configuration goes down in rank: no run of such a parser is infinite. */
  lemma StepGoesDown(g: CFG, eps: Symbol, delta: Delta, word: Word, c: Config, plan: Plan, c': Config) returns (plan': Plan)
    requires Usable(g, eps) && IsTable(g, eps, delta) && OneRuleEach(g) && Sentential(g, word, c) && PlanOk(g, c, plan)
    requires StepTo(delta, eps, word, c) == Some(c')
    ensures PlanOk(g, c', plan') && Less(Rank(word, c', plan'), Rank(word, c, plan))
  {
    hide Form, IsTable, StepTo, OneRuleEach;
    plan' := Idle;
    match c.q {
      case Begin =>
        BeginStep(g, eps, delta, word, c);
      case Ready =>
        FormStack(g, word, c.offset, c.stack);
        ReadyStep(g, eps, delta, word, c);
        plan' := ChoosePlan(g, word, c', word[c.offset]);
      case Seen(l) =>
        FormStack(g, word, c.offset - 1, c.stack);
        SeenStep(g, eps, delta, word, c, l);
        if c'.q != Ready {
          match plan {
            case Matching(n) =>
              var m := PlanMatching(g, eps, delta, word, c, l, n);
              plan' := Matching(m);
            case Erasing(below, n) =>
              plan' := PlanErasing(g, eps, delta, c, l, below, n);
          }
        }
    }
  }

  // ---------- the recorded productions are a leftmost derivation ----------

  /** Working off the stack from its top, with the rules in this order, spells out u. */
  ghost predicate Replays(g: CFG, stack: Word, rules: seq<Rule>, u: Word)
    decreases |rules|, |stack|
  {
    if stack == [] then rules == [] && u == []
    else if stack[0] in g.terminals then u != [] && u[0] == stack[0] && Replays(g, stack[1..], rules, u[1..])
    else rules != [] && rules[0] in g.rules && rules[0].lhs == stack[0] && Replays(g, rules[0].rhs + stack[1..], rules[1..], u)
  }

  /** Whatever completes the present stack completes the start symbol, after the rules and letters so far. */
  ghost predicate Recorded(g: CFG, word: Word, c: Config, rules: seq<Rule>) {
    match c.q
    case Begin => rules == []
    case Ready => c.offset <= |word| && RecordedFor(g, word[..c.offset], c.stack, rules)
    case Seen(_) => 1 <= c.offset <= |word| && RecordedFor(g, word[..c.offset - 1], c.stack, rules)
  }

  ghost predicate RecordedFor(g: CFG, read: Word, stack: Word, rules: seq<Rule>) {
    forall rs, u {:trigger Replays(g, stack, rs, u)} :: Replays(g, stack, rs, u) ==> Replays(g, [g.start], rules + rs, read + u)
  }

  lemma RecordExpansion(g: CFG, read: Word, stack: Word, rules: seq<Rule>, r: Rule)
    requires RecordedFor(g, read, stack, rules) && stack != [] && stack[0] !in g.terminals && r in g.rules && r.lhs == stack[0]
    ensures RecordedFor(g, read, r.rhs + stack[1..], rules + [r])
  {
    forall rs, u | Replays(g, r.rhs + stack[1..], rs, u) ensures Replays(g, [g.start], (rules + [r]) + rs, read + u) {
      assert ([r] + rs)[1..] == rs;
      assert Replays(g, stack, [r] + rs, u);
      assert rules + ([r] + rs) == (rules + [r]) + rs;
    }
  }

  lemma RecordPop(g: CFG, read: Word, stack: Word, rules: seq<Rule>)
    requires RecordedFor(g, read, stack, rules) && stack != [] && stack[0] in g.terminals
    ensures RecordedFor(g, read + [stack[0]], stack[1..], rules)
  {
    forall rs, u | Replays(g, stack[1..], rs, u) ensures Replays(g, [g.start], rules + rs, (read + [stack[0]]) + u) {
      assert ([stack[0]] + u)[1..] == u;
      assert Replays(g, stack, rs, [stack[0]] + u);
      assert read + ([stack[0]] + u) == (read + [stack[0]]) + u;
    }
  }

  lemma RecordStart(g: CFG)
    ensures RecordedFor(g, [], [g.start], [])
  {
    forall rs, u | Replays(g, [g.start], rs, u) ensures Replays(g, [g.start], [] + rs, [] + u) {
      assert [] + rs == rs && [] + u == u;
    }
  }

  /** A replay is a derivation, each rule one step. */
  lemma ReplayDerives(g: CFG, stack: Word, rules: seq<Rule>, u: Word)
    requires Replays(g, stack, rules, u)
    ensures Derives(g, stack, u, |rules|)
    decreases |rules|, |stack|
  {
    hide Derives;
    if stack == [] {
      NoDerivation(g, [], []);
    } else if stack[0] in g.terminals {
      ReplayDerives(g, stack[1..], rules, u[1..]);
      DerivesInContext(g, [stack[0]], stack[1..], u[1..], [], |rules|);
      assert [stack[0]] + stack[1..] + [] == stack && [stack[0]] + u[1..] + [] == u;
    } else {
      var r := rules[0];
      ReplayDerives(g, r.rhs + stack[1..], rules[1..], u);
      NoDerivation(g, r.rhs, r.rhs);
      RuleStep(g, r, r.rhs, 0);
      DerivesInContext(g, [], [r.lhs], r.rhs, stack[1..], 1);
      assert [] + [r.lhs] + stack[1..] == stack && [] + r.rhs + stack[1..] == r.rhs + stack[1..];
      DerivesTransitive(g, stack, r.rhs + stack[1..], u, 1, |rules| - 1);
    }
  }

  // ---------- runs ----------

  /** The rule a step records: only the steps that stay in their state do. */
  function RecordOf(k: Key, m: Move): seq<Rule> {
    if k.q == m.q then [Rule(k.x, m.w)] else []
  }

  /** What the run loop keeps, whatever the table. */
  ghost predicate Running(g: CFG, word: Word, c: Config, rules: seq<Rule>) {
    && Sentential(g, word, c) && Recorded(g, word, c, rules)
    && (OneRuleEach(g) && Accepted(g, word) ==> Tracks(g, word, c))
  }

  lemma StepRecords(g: CFG, eps: Symbol, delta: Delta, word: Word, c: Config, c': Config, k: Key, rules: seq<Rule>)
    requires Usable(g, eps) && IsTable(g, eps, delta) && Sentential(g, word, c) && Recorded(g, word, c, rules)
    requires Candidate(delta, eps, c.q, Letter(word, c.offset, eps), Top(c.stack, eps)) == Some(k)
    requires StepTo(delta, eps, word, c) == Some(c') && k in delta
    ensures Recorded(g, word, c', rules + RecordOf(k, delta[k]))
  {
    hide Form, IsTable, Candidate, RecordedFor;
    assert c' == Fire(eps, k, delta[k], c);
    assert k.q == c.q && delta[k].q == c'.q by { CandidateState(delta, eps, word, c, k); }
    match c.q {
      case Begin =>
        BeginStep(g, eps, delta, word, c);
        RecordStart(g);
        assert word[..0] == [];
        assert rules + [] == [];
      case Ready =>
        FormStack(g, word, c.offset, c.stack);
        ReadyStep(g, eps, delta, word, c);
        assert rules + [] == rules;
      case Seen(l) =>
        FormStack(g, word, c.offset - 1, c.stack);
        SeenStep(g, eps, delta, word, c, l);
        RecordSeen(g, eps, delta, word, c, c', l, k, rules);
    }
  }

  lemma CandidateState(delta: Delta, eps: Symbol, word: Word, c: Config, k: Key)
    requires Candidate(delta, eps, c.q, Letter(word, c.offset, eps), Top(c.stack, eps)) == Some(k)
    ensures k in delta && k.q == c.q && StepTo(delta, eps, word, c) == Some(Fire(eps, k, delta[k], c))
  {
  }

  lemma RecordSeen(g: CFG, eps: Symbol, delta: Delta, word: Word, c: Config, c': Config, l: Symbol, k: Key, rules: seq<Rule>)
    requires Usable(g, eps) && IsTable(g, eps, delta) && Sentential(g, word, c) && Recorded(g, word, c, rules) && c.q == Seen(l)
    requires SeenOutcome(g, eps, delta, c, l, Some(c')) && StackOk(g, c.stack)
    requires Candidate(delta, eps, c.q, Letter(word, c.offset, eps), Top(c.stack, eps)) == Some(k) && k in delta
    requires c' == Fire(eps, k, delta[k], c) && k.q == c.q && delta[k].q == c'.q
    ensures Recorded(g, word, c', rules + RecordOf(k, delta[k]))
  {
    hide Form, RecordedFor, Predicts;
    assert EntryOk(g, eps, k, delta[k]);
    var x := c.stack[0];
    assert x in c.stack && k == TopKey(eps, l, x);
    hide IsTable;
    if x in g.terminals {
      RecordPop(g, word[..c.offset - 1], c.stack, rules);
      assert word[..c.offset - 1] + [x] == word[..c.offset];
      assert rules + [] == rules;
    } else {
      var r := TableRule(g, eps, delta, l, x);
      RecordExpansion(g, word[..c.offset - 1], c.stack, rules, r);
    }
  }

  lemma RunStart(g: CFG, word: Word)
    ensures Running(g, word, Config(Begin, [], 0), [])
  {
  }

  lemma RunStep(g: CFG, eps: Symbol, delta: Delta, word: Word, c: Config, rules: seq<Rule>, c': Config, k: Key)
    requires Usable(g, eps) && IsTable(g, eps, delta) && Running(g, word, c, rules) && !IsFinal(g, c)
    requires Candidate(delta, eps, c.q, Letter(word, c.offset, eps), Top(c.stack, eps)) == Some(k)
    requires StepTo(delta, eps, word, c) == Some(c') && k in delta
    ensures Running(g, word, c', rules + RecordOf(k, delta[k]))
  {
    hide Sentential, Recorded, Tracks, IsTable, OneRuleEach, Accepted, Candidate, StepTo;
    StepKeepsForm(g, eps, delta, word, c, c');
    StepRecords(g, eps, delta, word, c, c', k, rules);
    if OneRuleEach(g) && Accepted(g, word) {
      AcceptedIsNonempty(g, word);
      var d := StepKeepsTrack(g, eps, delta, word, c);
    }
  }

  lemma AcceptedIsNonempty(g: CFG, word: Word)
    requires Accepted(g, word)
    ensures word != []
  {
  }

  /** Where the machine stops short of its final configuration, the word is not acceptable. */
  lemma StuckRejects(g: CFG, eps: Symbol, delta: Delta, word: Word, c: Config, rules: seq<Rule>)
    requires Usable(g, eps) && IsTable(g, eps, delta) && OneRuleEach(g) && Running(g, word, c, rules) && !IsFinal(g, c)
    requires StepTo(delta, eps, word, c) == None
    ensures !Accepted(g, word)
  {
    hide Sentential, Recorded, Tracks, IsTable, OneRuleEach, Accepted, StepTo;
    if Accepted(g, word) {
      AcceptedIsNonempty(g, word);
      var d := StepKeepsTrack(g, eps, delta, word, c);
      assert false;
    }
  }

  lemma RunEnd(g: CFG, word: Word, c: Config, rules: seq<Rule>)
    requires Running(g, word, c, rules) && IsFinal(g, c)
    ensures c.offset == |word| <==> Accepted(g, word)
    ensures Accepted(g, word) ==> word != [] && Replays(g, [g.start], rules, word[..|word| - 1])
  {
    hide DerivesStar, StackOk;
    if c.offset == |word| {
      FinalIsAccepted(g, word, c);
      var u := word[..|word| - 1];
      assert Replays(g, [], [], []);
      assert rules + [] == rules && u + [] == u;
    }
    if Accepted(g, word) {
      assert forall i :: 0 <= i < |word| - 1 ==> word[i] == word[..|word| - 1][i] && word[i] != g.eof;
    }
  }

  // ---------- where runs stop ----------

  /** The run loop ends at c: nothing more is read, or nothing more can be done. */
  ghost predicate Stops(g: CFG, eps: Symbol, delta: Delta, word: Word, c: Config) {
    IsFinal(g, c) || StepTo(delta, eps, word, c) == None
  }

  ghost predicate StopsAfter(g: CFG, eps: Symbol, delta: Delta, word: Word, n: nat) {
    var c := AfterSteps(delta, eps, word, n);
    c.Some? && Stops(g, eps, delta, word, c.value)
  }

  ghost predicate Halts(g: CFG, eps: Symbol, delta: Delta, word: Word) {
    exists n :: StopsAfter(g, eps, delta, word, n)
  }

  /** The machine reaches its final configuration exactly at the end of the word. */
  ghost predicate Reads(g: CFG, eps: Symbol, delta: Delta, word: Word) {
    exists n :: ReadsAfter(g, eps, delta, word, n)
  }

  ghost predicate ReadsAfter(g: CFG, eps: Symbol, delta: Delta, word: Word, n: nat) {
    var c := AfterSteps(delta, eps, word, n);
    c.Some? && IsFinal(g, c.value) && c.value.offset == |word|
  }

  lemma NextAfter(delta: Delta, eps: Symbol, word: Word, n: nat)
    requires AfterSteps(delta, eps, word, n).Some?
    ensures AfterSteps(delta, eps, word, n + 1) == StepTo(delta, eps, word, AfterSteps(delta, eps, word, n).value)
  {
    hide StepTo;
  }

  lemma {:induction false} HaltsFrom(g: CFG, eps: Symbol, delta: Delta, word: Word, n: nat, c: Config, plan: Plan)
    requires Usable(g, eps) && IsTable(g, eps, delta) && OneRuleEach(g)
    requires AfterSteps(delta, eps, word, n) == Some(c) && Sentential(g, word, c) && PlanOk(g, c, plan)
    ensures Halts(g, eps, delta, word)
    decreases Rank(word, c, plan).0, Rank(word, c, plan).1, Rank(word, c, plan).2, Rank(word, c, plan).3
  {
    hide Sentential, PlanOk, IsTable, OneRuleEach, StepTo, AfterSteps, Usable;
    if Stops(g, eps, delta, word, c) {
      assert StopsAfter(g, eps, delta, word, n);
    } else {
      var c' := StepTo(delta, eps, word, c).value;
      NextAfter(delta, eps, word, n);
      StepKeepsForm(g, eps, delta, word, c, c');
      var plan' := StepGoesDown(g, eps, delta, word, c, plan, c');
      HaltsFrom(g, eps, delta, word, n + 1, c', plan');
    }
  }

  /** Where no letter has a choice, the machine halts on every word. */
  lemma AlwaysHalts(g: CFG, eps: Symbol, delta: Delta, word: Word)
    requires Usable(g, eps) && IsTable(g, eps, delta) && OneRuleEach(g)
    ensures Halts(g, eps, delta, word)
  {
    hide OneRuleEach, IsTable;
    StartIsSentential(g, word);
    HaltsFrom(g, eps, delta, word, 0, Config(Begin, [], 0), Idle);
  }

  /** In its final configuration the machine is stuck. */
  lemma FinalIsStuck(g: CFG, eps: Symbol, delta: Delta, word: Word, c: Config)
    requires Usable(g, eps) && IsTable(g, eps, delta) && IsFinal(g, c)
    ensures StepTo(delta, eps, word, c) == None
  {
    hide IsTable, StepTo;
    SeenStep(g, eps, delta, word, c, g.eof);
  }

  lemma {:induction false} NothingLater(delta: Delta, eps: Symbol, word: Word, n: nat, m: nat)
    requires AfterSteps(delta, eps, word, n).Some? && StepTo(delta, eps, word, AfterSteps(delta, eps, word, n).value) == None && n < m
    ensures AfterSteps(delta, eps, word, m) == None
    decreases m
  {
    hide StepTo;
    if m > n + 1 {
      NothingLater(delta, eps, word, n, m - 1);
    }
  }

  /** A run stops only once: where it stops decides whether the word is read. */
  lemma StopDecides(g: CFG, eps: Symbol, delta: Delta, word: Word, n: nat)
    requires Usable(g, eps) && IsTable(g, eps, delta) && StopsAfter(g, eps, delta, word, n)
    ensures Reads(g, eps, delta, word) <==> ReadsAfter(g, eps, delta, word, n)
  {
    hide IsTable, StepTo, AfterSteps, Usable;
    var c := AfterSteps(delta, eps, word, n).value;
    if IsFinal(g, c) {
      FinalIsStuck(g, eps, delta, word, c);
    }
    if m: nat :| ReadsAfter(g, eps, delta, word, m) {
      FinalIsStuck(g, eps, delta, word, AfterSteps(delta, eps, word, m).value);
      if m < n {
        NothingLater(delta, eps, word, m, n);
      } else if n < m {
        NothingLater(delta, eps, word, n, m);
      }
    }
  }

  lemma {:induction false} RunTracks(g: CFG, eps: Symbol, delta: Delta, word: Word, n: nat)
    requires Usable(g, eps) && IsTable(g, eps, delta) && OneRuleEach(g) && Accepted(g, word)
    requires AfterSteps(delta, eps, word, n).Some?
    ensures Tracks(g, word, AfterSteps(delta, eps, word, n).value)
  {
    hide IsTable, StepTo, OneRuleEach, Usable, Tracks, Sentential, Accepted;
    if n == 0 {
      StartTracks(g, word);
    } else {
      RunTracks(g, eps, delta, word, n - 1);
      EveryRunIsSound(g, eps, delta, word, n - 1);
      var c := AfterSteps(delta, eps, word, n - 1).value;
      if IsFinal(g, c) {
        FinalIsStuck(g, eps, delta, word, c);
      }
      AcceptedIsNonempty(g, word);
      var c' := StepKeepsTrack(g, eps, delta, word, c);
    }
  }

  lemma StartTracks(g: CFG, word: Word)
    requires Accepted(g, word)
    ensures Tracks(g, word, Config(Begin, [], 0))
  {
  }

  lemma FinalTracks(g: CFG, word: Word, c: Config)
    requires Accepted(g, word) && Sentential(g, word, c) && Tracks(g, word, c) && IsFinal(g, c)
    ensures c.offset == |word|
  {
    hide DerivesStar, StackOk;
    assert forall i :: 0 <= i < |word| - 1 ==> word[i] == word[..|word| - 1][i] && word[i] != g.eof;
  }

  /** Where no letter has a choice, the machine halts on every word and reads exactly the language. */
  lemma ReadsLanguage(g: CFG, eps: Symbol, delta: Delta, word: Word)
    requires Usable(g, eps) && IsTable(g, eps, delta) && OneRuleEach(g)
    ensures Halts(g, eps, delta, word) && (Reads(g, eps, delta, word) <==> Accepted(g, word))
  {
    hide IsTable, StepTo, AfterSteps, OneRuleEach, Usable, Tracks, Sentential, Accepted;
    AlwaysHalts(g, eps, delta, word);
    var n :| StopsAfter(g, eps, delta, word, n);
    var c := AfterSteps(delta, eps, word, n).value;
    StopDecides(g, eps, delta, word, n);
    EveryRunIsSound(g, eps, delta, word, n);
    if Accepted(g, word) {
      RunTracks(g, eps, delta, word, n);
      if !IsFinal(g, c) {
        AcceptedIsNonempty(g, word);
        var c' := StepKeepsTrack(g, eps, delta, word, c);
        assert false;
      }
      FinalTracks(g, word, c);
    }
  }
}
