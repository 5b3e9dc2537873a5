/** Deterministic pushdown automata: the transition table and one step of a run. */
module Dpda {
  import opened Words

  /** State 0, state 1, and the states that remember the letter just read. */
  datatype State = Begin | Ready | Seen(letter: Symbol)

  datatype Key = Key(q: State, a: Symbol, x: Symbol)

  datatype Move = Move(q: State, w: Word)

  type Delta = map<Key, Move>

  /** The stack is written with its top first. */
  datatype Config = Config(q: State, stack: Word, offset: nat)

  function Letter(word: Word, offset: nat, eps: Symbol): Symbol {
    if offset < |word| then word[offset] else eps
  }

  function Top(stack: Word, eps: Symbol): Symbol {
    if stack == [] then eps else stack[0]
  }

  /** The transition that is found first: with both letter and top, without the top, without the letter, without either. */
  function Candidate(delta: Delta, eps: Symbol, q: State, l: Symbol, s: Symbol): (k: Option<Key>)
    ensures k.Some? ==> k.value in delta && k.value.q == q && (k.value.a == l || k.value.a == eps) && (k.value.x == s || k.value.x == eps)
  {
    if Key(q, l, s) in delta then Some(Key(q, l, s))
    else if s != eps && Key(q, l, eps) in delta then Some(Key(q, l, eps))
    else if l != eps && Key(q, eps, s) in delta then Some(Key(q, eps, s))
    else if s != eps && l != eps && Key(q, eps, eps) in delta then Some(Key(q, eps, eps))
    else None
  }

  function Fire(eps: Symbol, k: Key, m: Move, c: Config): Config {
    Config(m.q, m.w + (if k.x != eps && c.stack != [] then c.stack[1..] else c.stack), if k.a != eps then c.offset + 1 else c.offset)
  }

  /** One step of the machine, when it is not stuck. */
  function StepTo(delta: Delta, eps: Symbol, word: Word, c: Config): Option<Config> {
    var k := Candidate(delta, eps, c.q, Letter(word, c.offset, eps), Top(c.stack, eps));
    if k.Some? then Some(Fire(eps, k.value, delta[k.value], c)) else None
  }

  // ---------- what a step is, without the lookups ----------

  /** The word that a letter of a key stands for. */
  function Opt(eps: Symbol, x: Symbol): Word {
    if x == eps then [] else [x]
  }

  /** An entry of the table applies when the input still to be read starts with its letter and the stack with its top. */
  ghost predicate Applies(delta: Delta, eps: Symbol, word: Word, c: Config, k: Key)
    requires c.offset <= |word|
  {
    k in delta && k.q == c.q && Opt(eps, k.a) <= word[c.offset..] && Opt(eps, k.x) <= c.stack
  }

  /** Entries that read a letter go first, and among those that do the same, the ones that pop. */
  predicate Before(eps: Symbol, k: Key, k': Key) {
    || (k.a != eps && k'.a == eps)
    || ((k.a != eps <==> k'.a != eps) && k.x != eps && k'.x == eps)
  }

  /** The move by entry k: it applies, none before it does, it reads its letter and puts its word in place of its top. */
  ghost predicate Moves(delta: Delta, eps: Symbol, word: Word, c: Config, k: Key, c': Config)
    requires c.offset <= |word|
  {
    && Applies(delta, eps, word, c, k)
    && (forall k' :: Applies(delta, eps, word, c, k') ==> !Before(eps, k', k))
    && c'.q == delta[k].q
    && c'.offset <= |word| && word[c.offset..] == Opt(eps, k.a) + word[c'.offset..]
    && exists rest :: c.stack == Opt(eps, k.x) + rest && c'.stack == delta[k].w + rest
  }

  lemma AppliesAt(delta: Delta, eps: Symbol, word: Word, c: Config, k: Key)
    requires c.offset <= |word|
    ensures Applies(delta, eps, word, c, k) <==>
      k in delta && k.q == c.q && (k.a == eps || k.a == Letter(word, c.offset, eps)) && (k.x == eps || k.x == Top(c.stack, eps))
  {
    if c.offset < |word| {
      assert word[c.offset..][0] == word[c.offset];
    }
  }

  /** The lookups find an entry if and only if one applies, and then one with none before it. */
  lemma CandidateApplies(delta: Delta, eps: Symbol, word: Word, c: Config)
    requires c.offset <= |word|
    ensures
      match Candidate(delta, eps, c.q, Letter(word, c.offset, eps), Top(c.stack, eps))
      case None => forall k :: !Applies(delta, eps, word, c, k)
      case Some(k) => Applies(delta, eps, word, c, k) && forall k' :: Applies(delta, eps, word, c, k') ==> !Before(eps, k', k)
  {
    forall k ensures Applies(delta, eps, word, c, k) <==>
      k in delta && k.q == c.q && (k.a == eps || k.a == Letter(word, c.offset, eps)) && (k.x == eps || k.x == Top(c.stack, eps))
    {
      AppliesAt(delta, eps, word, c, k);
    }
    hide Applies;
  }

  lemma FireMoves(delta: Delta, eps: Symbol, word: Word, c: Config, k: Key)
    requires c.offset <= |word| && Applies(delta, eps, word, c, k)
    requires forall k' :: Applies(delta, eps, word, c, k') ==> !Before(eps, k', k)
    ensures Moves(delta, eps, word, c, k, Fire(eps, k, delta[k], c))
  {
    var rest := if k.x != eps then c.stack[1..] else c.stack;
    assert c.stack == Opt(eps, k.x) + rest;
    AppliesAt(delta, eps, word, c, k);
  }

  /** From one configuration there is at most one move. */
  lemma MoveIsUnique(delta: Delta, eps: Symbol, word: Word, c: Config, k: Key, d: Config, l: Key, e: Config)
    requires c.offset <= |word| && Moves(delta, eps, word, c, k, d) && Moves(delta, eps, word, c, l, e)
    ensures k == l && d == e
  {
    AppliesAt(delta, eps, word, c, k);
    AppliesAt(delta, eps, word, c, l);
    var r :| c.stack == Opt(eps, k.x) + r && d.stack == delta[k].w + r;
    var r' :| c.stack == Opt(eps, l.x) + r' && e.stack == delta[l].w + r';
    assert r == c.stack[|Opt(eps, k.x)|..] && r' == c.stack[|Opt(eps, l.x)|..];
    assert |word[c.offset..]| == |Opt(eps, k.a)| + |word[d.offset..]|;
    assert |word[c.offset..]| == |Opt(eps, l.a)| + |word[e.offset..]|;
  }

  /** The steps of the run are the moves: the machine is stuck if and only if no entry applies. */
  lemma StepIsMove(delta: Delta, eps: Symbol, word: Word, c: Config)
    requires c.offset <= |word|
    ensures StepTo(delta, eps, word, c) == None <==> forall k :: !Applies(delta, eps, word, c, k)
    ensures forall c' :: StepTo(delta, eps, word, c) == Some(c') <==> exists k :: Moves(delta, eps, word, c, k, c')
  {
    hide Applies, Before, Moves, Fire, Candidate;
    CandidateApplies(delta, eps, word, c);
    var found := Candidate(delta, eps, c.q, Letter(word, c.offset, eps), Top(c.stack, eps));
    if found.Some? {
      var k := found.value;
      FireMoves(delta, eps, word, c, k);
      forall c', l | Moves(delta, eps, word, c, l, c') ensures c' == Fire(eps, k, delta[k], c) {
        MoveIsUnique(delta, eps, word, c, k, Fire(eps, k, delta[k], c), l, c');
      }
    } else {
      forall c', l ensures !Moves(delta, eps, word, c, l, c') {
        NoMove(delta, eps, word, c, l, c');
      }
    }
  }

  lemma NoMove(delta: Delta, eps: Symbol, word: Word, c: Config, k: Key, c': Config)
    requires c.offset <= |word| && !Applies(delta, eps, word, c, k)
    ensures !Moves(delta, eps, word, c, k, c')
  {
    hide Applies;
  }

  /** The vector that holds the stack has its top at the end. */
  function TopFirst(stack: seq<Symbol>): (w: Word)
    ensures |w| == |stack|
  {
    if stack == [] then [] else [stack[|stack| - 1]] + TopFirst(stack[..|stack| - 1])
  }

  lemma PushTop(stack: seq<Symbol>, s: Symbol)
    ensures TopFirst(stack + [s]) == [s] + TopFirst(stack)
  {
    assert (stack + [s])[..|stack|] == stack;
  }

  lemma {:induction false} TopFirstAt(stack: seq<Symbol>, i: nat)
    requires i < |stack|
    ensures TopFirst(stack)[i] == stack[|stack| - 1 - i]
  {
    if i > 0 {
      TopFirstAt(stack[..|stack| - 1], i - 1);
    }
  }

  /** Pushes a right side so that its first symbol ends up on top. */
  method PushReversed(stack0: seq<Symbol>, w: Word) returns (stack: seq<Symbol>)
    ensures TopFirst(stack) == w + TopFirst(stack0)
  {
    hide TopFirst;
    stack := stack0;
    var i := |w|;
    AllPushed(w, TopFirst(stack0));
    while i > 0
      invariant 0 <= i <= |w| && TopFirst(stack) == w[i..] + TopFirst(stack0)
    {
      i := i - 1;
      PushTop(stack, w[i]);
      OneMorePushed(w, i, TopFirst(stack0));
      stack := stack + [w[i]];
    }
  }

  lemma AllPushed(w: Word, below: Word)
    ensures w[|w|..] + below == below && w[0..] + below == w + below
  {
    assert w[|w|..] == [] && w[0..] == w;
  }

  lemma OneMorePushed(w: Word, i: nat, below: Word)
    requires i < |w|
    ensures [w[i]] + (w[i + 1..] + below) == w[i..] + below
  {
    assert w[i..] == [w[i]] + w[i + 1..];
  }

  lemma PopTop(stack: seq<Symbol>)
    requires stack != []
    ensures TopFirst(stack) != [] && TopFirst(stack)[1..] == TopFirst(stack[..|stack| - 1])
  {
  }

  /** One attempt: looks the key up, and if it is there pops, pushes the production and advances the input. */
  method Transition(delta: Delta, eps: Symbol, q: State, a: Symbol, top: Symbol, stack: seq<Symbol>, offset: nat)
    returns (found: bool, q': State, stack': seq<Symbol>, offset': nat)
    requires top != eps ==> stack != []
    ensures found <==> Key(q, a, top) in delta
    ensures found ==> Config(q', TopFirst(stack'), offset') == Fire(eps, Key(q, a, top), delta[Key(q, a, top)], Config(q, TopFirst(stack), offset))
    ensures !found ==> q' == q && stack' == stack && offset' == offset
  {
    hide TopFirst;
    found, q', stack', offset' := Key(q, a, top) in delta, q, stack, offset;
    if !found {
      return;
    }
    var m := delta[Key(q, a, top)];
    if top != eps {
      PopTop(stack);
      stack' := stack'[..|stack'| - 1];
    }
    stack' := PushReversed(stack', m.w);
    q' := m.q;
    if a != eps {
      offset' := offset' + 1;
    }
  }

  /** The attempts of one round of the run loop, in order; `key` is the entry that was found. */
  method Round(delta: Delta, eps: Symbol, word: Word, q: State, stack: seq<Symbol>, offset: nat)
    returns (found: bool, key: Key, q': State, stack': seq<Symbol>, offset': nat)
    ensures var c := Config(q, TopFirst(stack), offset);
      && (if found then Candidate(delta, eps, q, Letter(word, offset, eps), Top(c.stack, eps)) == Some(key)
          else Candidate(delta, eps, q, Letter(word, offset, eps), Top(c.stack, eps)) == None)
      && (if found then StepTo(delta, eps, word, c) == Some(Config(q', TopFirst(stack'), offset'))
          else StepTo(delta, eps, word, c) == None && q' == q && stack' == stack && offset' == offset)
    ensures offset <= |word| ==>
      var c := Config(q, TopFirst(stack), offset);
      if found then Moves(delta, eps, word, c, key, Config(q', TopFirst(stack'), offset'))
      else forall k :: !Applies(delta, eps, word, c, k)
  {
    hide Moves, Applies;
    var l := if offset < |word| then word[offset] else eps;
    var s := if stack == [] then eps else stack[|stack| - 1];
    key := Key(q, l, s);
    found, q', stack', offset' := Transition(delta, eps, q, l, s, stack, offset);
    if !found && s != eps {
      key := Key(q, l, eps);
      found, q', stack', offset' := Transition(delta, eps, q, l, eps, stack, offset);
    }
    if !found && l != eps {
      key := Key(q, eps, s);
      found, q', stack', offset' := Transition(delta, eps, q, eps, s, stack, offset);
    }
    if !found && s != eps && l != eps {
      key := Key(q, eps, eps);
      found, q', stack', offset' := Transition(delta, eps, q, eps, eps, stack, offset);
    }
    if offset <= |word| {
      CandidateApplies(delta, eps, word, Config(q, TopFirst(stack), offset));
      if found {
        FireMoves(delta, eps, word, Config(q, TopFirst(stack), offset), key);
      }
    }
  }
}
