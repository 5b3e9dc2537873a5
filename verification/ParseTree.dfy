/** Rebuilding the parse tree from the recorded productions. */
module ParseTree {
  import opened Words
  import opened Grammar
  import opened Ll1

  datatype Tree = Node(value: Symbol, children: seq<Tree>)

  /** Inner nodes follow a rule, with an epsilon leaf for an empty right side; leaves are terminals or epsilon. */
  ghost predicate FollowsRules(g: CFG, eps: Symbol, t: Tree) {
    if t.children == [] then t.value in g.terminals || t.value == eps
    else (exists r :: r in g.rules && r.lhs == t.value && Roots(t.children) == RightSide(eps, r.rhs))
         && forall c :: c in t.children ==> FollowsRules(g, eps, c)
  }

  function RightSide(eps: Symbol, rhs: Word): Word {
    if rhs == [] then [eps] else rhs
  }

  function Roots(ts: seq<Tree>): Word {
    seq(|ts|, i requires 0 <= i < |ts| => ts[i].value)
  }

  /** The leaves from left to right, without epsilon. */
  function Frontier(eps: Symbol, t: Tree): Word
    decreases t, 0
  {
    if t.children == [] then (if t.value == eps then [] else [t.value]) else FrontierOf(eps, t.children)
  }

  function FrontierOf(eps: Symbol, ts: seq<Tree>): Word
    decreases ts, 1
  {
    if ts == [] then [] else Frontier(eps, ts[0]) + FrontierOf(eps, ts[1..])
  }

  lemma FrontierAppend(eps: Symbol, ts: seq<Tree>, t: Tree)
    ensures FrontierOf(eps, ts + [t]) == FrontierOf(eps, ts) + Frontier(eps, t)
  {
    if ts == [] {
      assert ts + [t] == [t] && [t][1..] == [];
    } else {
      assert (ts + [t])[1..] == ts[1..] + [t];
      FrontierAppend(eps, ts[1..], t);
    }
  }

  /** A node under construction: how far its right side is done, and which production it uses. */
  datatype Frame = Frame(value: Symbol, children: seq<Tree>, idx: nat, prod: nat)

  ghost predicate FrameOk(g: CFG, eps: Symbol, ps: seq<Rule>, f: Frame) {
    && f.prod < |ps| && ps[f.prod] in g.rules && ps[f.prod].lhs == f.value && f.idx <= |ps[f.prod].rhs|
    && Roots(f.children) == ps[f.prod].rhs[..f.idx]
    && forall c :: c in f.children ==> FollowsRules(g, eps, c)
  }

  /** The frame waits for its child `value`. */
  ghost predicate WaitsFor(ps: seq<Rule>, f: Frame, value: Symbol) {
    f.prod < |ps| && f.idx < |ps[f.prod].rhs| && ps[f.prod].rhs[f.idx] == value
  }

  ghost predicate FramesOk(g: CFG, eps: Symbol, ps: seq<Rule>, stack: seq<Frame>) {
    && (forall i {:trigger FrameOk(g, eps, ps, stack[i])} :: 0 <= i < |stack| ==> FrameOk(g, eps, ps, stack[i]))
    && (forall i {:trigger WaitsFor(ps, stack[i], stack[i + 1].value)} :: 0 <= i < |stack| - 1 ==> WaitsFor(ps, stack[i], stack[i + 1].value))
  }

  /** What the frames still have to produce behind the child they wait for. */
  function Below(ps: seq<Rule>, stack: seq<Frame>): Word {
    if stack == [] then []
    else
      var f := stack[|stack| - 1];
      (if f.prod < |ps| && f.idx < |ps[f.prod].rhs| then ps[f.prod].rhs[f.idx + 1..] else []) + Below(ps, stack[..|stack| - 1])
  }

  function Todo(ps: seq<Rule>, stack: seq<Frame>): Word {
    if stack == [] then []
    else
      var f := stack[|stack| - 1];
      (if f.prod < |ps| && f.idx <= |ps[f.prod].rhs| then ps[f.prod].rhs[f.idx..] else []) + Below(ps, stack[..|stack| - 1])
  }

  /** What the finished parts spell out. */
  function Spelled(eps: Symbol, stack: seq<Frame>): Word {
    if stack == [] then [] else Spelled(eps, stack[..|stack| - 1]) + FrontierOf(eps, stack[|stack| - 1].children)
  }

  ghost predicate Building(g: CFG, eps: Symbol, ps: seq<Rule>, u: Word, stack: seq<Frame>, pos: nat, next: nat) {
    && stack != [] && stack[0].value == g.start && FramesOk(g, eps, ps, stack)
    && pos <= |u| && next < |ps| && Spelled(eps, stack) == u[..pos]
    && Replays(g, Todo(ps, stack), ps[next + 1..], u[pos..])
  }

  lemma BuildStart(g: CFG, eps: Symbol, ps: seq<Rule>, u: Word)
    requires g.start !in g.terminals && Replays(g, [g.start], ps, u)
    ensures Building(g, eps, ps, u, [Frame(g.start, [], 0, 0)], 0, 0)
  {
    var f := Frame(g.start, [], 0, 0);
    assert [g.start][1..] == [] && ps[0].rhs + [] == ps[0].rhs;
    assert [f][..0] == [];
    assert ps[0].rhs[0..] + [] == ps[0].rhs;
    assert ps[0].rhs[..0] == Roots([]);
    assert u[0..] == u;
  }

  lemma TopFrame(g: CFG, eps: Symbol, ps: seq<Rule>, u: Word, stack: seq<Frame>, pos: nat, next: nat)
    requires Building(g, eps, ps, u, stack, pos, next)
    ensures stack != [] && FrameOk(g, eps, ps, stack[|stack| - 1]) && pos <= |u| && next < |ps|
  {
  }

  /** The part of the right side from `from` on. */
  function RestFrom(ps: seq<Rule>, f: Frame, from: nat): Word {
    if f.prod < |ps| && from <= |ps[f.prod].rhs| then ps[f.prod].rhs[from..] else []
  }

  lemma TopOf(eps: Symbol, ps: seq<Rule>, lower: seq<Frame>, f: Frame)
    ensures Todo(ps, lower + [f]) == RestFrom(ps, f, f.idx) + Below(ps, lower)
    ensures Below(ps, lower + [f]) == RestFrom(ps, f, f.idx + 1) + Below(ps, lower)
    ensures Spelled(eps, lower + [f]) == Spelled(eps, lower) + FrontierOf(eps, f.children)
  {
    assert (lower + [f])[..|lower|] == lower;
  }

  lemma ReplayLetter(g: CFG, s: Symbol, rest: Word, rs: seq<Rule>, u: Word)
    requires Replays(g, [s] + rest, rs, u) && s in g.terminals
    ensures u != [] && u[0] == s && Replays(g, rest, rs, u[1..])
  {
    assert ([s] + rest)[1..] == rest;
  }

  lemma ReplayRule(g: CFG, s: Symbol, rest: Word, rs: seq<Rule>, u: Word)
    requires Replays(g, [s] + rest, rs, u) && s !in g.terminals
    ensures rs != [] && rs[0] in g.rules && rs[0].lhs == s && Replays(g, rs[0].rhs + rest, rs[1..], u)
  {
    assert ([s] + rest)[1..] == rest;
  }

  lemma RestStep(ps: seq<Rule>, f: Frame, s: Symbol, below: Word)
    requires WaitsFor(ps, f, s)
    ensures RestFrom(ps, f, f.idx) + below == [s] + (RestFrom(ps, f, f.idx + 1) + below)
  {
    var rhs := ps[f.prod].rhs;
    assert rhs[f.idx..] == [s] + rhs[f.idx + 1..];
  }

  /** A letter is consumed. */
  lemma BuildLeaf(g: CFG, eps: Symbol, ps: seq<Rule>, u: Word, lower: seq<Frame>, f: Frame, pos: nat, next: nat, s: Symbol)
    requires Building(g, eps, ps, u, lower + [f], pos, next) && eps !in g.terminals && WaitsFor(ps, f, s) && s in g.terminals
    ensures pos < |u| && u[pos] == s
    ensures Building(g, eps, ps, u, lower + [Frame(f.value, f.children + [Node(s, [])], f.idx + 1, f.prod)], pos + 1, next)
  {
    hide Todo, Below, Spelled, FramesOk, FrameOk, Replays, FollowsRules, WaitsFor, Frontier, FrontierOf;
    var f' := Frame(f.value, f.children + [Node(s, [])], f.idx + 1, f.prod);
    TopFrame(g, eps, ps, u, lower + [f], pos, next);
    assert (lower + [f])[|lower|] == f;
    LeafFrame(g, eps, ps, f, s);
    ReplaceTop(g, eps, ps, lower, f, f');
    TopOf(eps, ps, lower, f);
    TopOf(eps, ps, lower, f');
    RestStep(ps, f, s, Below(ps, lower));
    ReplayLetter(g, s, RestFrom(ps, f', f'.idx) + Below(ps, lower), ps[next + 1..], u[pos..]);
    assert u[pos..][1..] == u[pos + 1..] && u[pos..][0] == u[pos];
    FrontierAppend(eps, f.children, Node(s, []));
    assert u[..pos + 1] == u[..pos] + [s];
    Associate(Spelled(eps, lower), FrontierOf(eps, f.children), [s]);
    assert Frontier(eps, Node(s, [])) == [s] by { LeafFrontier(eps, s); }
    assert (lower + [f'])[0].value == (lower + [f])[0].value;
  }

  lemma LeafFrontier(eps: Symbol, s: Symbol)
    ensures Frontier(eps, Node(s, [])) == if s == eps then [] else [s]
  {
  }

  /** A new node is opened for the next production. */
  lemma BuildOpen(g: CFG, eps: Symbol, ps: seq<Rule>, u: Word, lower: seq<Frame>, f: Frame, pos: nat, next: nat, s: Symbol)
    requires Building(g, eps, ps, u, lower + [f], pos, next) && WaitsFor(ps, f, s) && s !in g.terminals
    ensures next + 1 < |ps|
    ensures Building(g, eps, ps, u, lower + [f] + [Frame(s, [], 0, next + 1)], pos, next + 1)
  {
    var h := Frame(s, [], 0, next + 1);
    TopFrame(g, eps, ps, u, lower + [f], pos, next);
    TopOf(eps, ps, lower, f);
    TopOf(eps, ps, lower + [f], h);
    RestStep(ps, f, s, Below(ps, lower));
    hide Todo, Below, Spelled, Replays, FollowsRules, Frontier;
    ReplayRule(g, s, Below(ps, lower + [f]), ps[next + 1..], u[pos..]);
    assert ps[next + 1..][1..] == ps[next + 2..] && ps[next + 1..][0] == ps[next + 1];
    assert RestFrom(ps, h, 0) == ps[next + 1].rhs;
    OpenFrame(g, eps, ps, lower, f, h);
    EmptyFrontier(eps);
    assert Spelled(eps, lower + [f]) + [] == Spelled(eps, lower + [f]);
    assert (lower + [f] + [h])[0] == (lower + [f])[0];
  }

  lemma EmptyFrontier(eps: Symbol)
    ensures FrontierOf(eps, []) == []
  {
  }

  lemma OpenFrame(g: CFG, eps: Symbol, ps: seq<Rule>, lower: seq<Frame>, f: Frame, h: Frame)
    requires FramesOk(g, eps, ps, lower + [f]) && WaitsFor(ps, f, h.value)
    requires h.prod < |ps| && ps[h.prod] in g.rules && ps[h.prod].lhs == h.value && h.children == [] && h.idx == 0
    ensures FramesOk(g, eps, ps, lower + [f] + [h])
  {
    hide WaitsFor;
    assert ps[h.prod].rhs[..0] == Roots([]);
    assert FrameOk(g, eps, ps, h);
    hide FrameOk;
    var stack, stack' := lower + [f], lower + [f] + [h];
    forall i | 0 <= i < |stack'| ensures FrameOk(g, eps, ps, stack'[i]) {
      assert i < |stack| ==> FrameOk(g, eps, ps, stack[i]);
    }
    forall i | 0 <= i < |stack'| - 1 ensures WaitsFor(ps, stack'[i], stack'[i + 1].value) {
      assert i < |stack| - 1 ==> WaitsFor(ps, stack[i], stack[i + 1].value);
    }
  }

  /** The finished node of a frame. */
  function Finished(eps: Symbol, ps: seq<Rule>, f: Frame): Tree {
    Node(f.value, if f.prod < |ps| && ps[f.prod].rhs == [] then f.children + [Node(eps, [])] else f.children)
  }

  lemma FinishedIsTree(g: CFG, eps: Symbol, ps: seq<Rule>, f: Frame)
    requires FrameOk(g, eps, ps, f) && f.idx == |ps[f.prod].rhs|
    ensures FollowsRules(g, eps, Finished(eps, ps, f))
    ensures Frontier(eps, Finished(eps, ps, f)) == FrontierOf(eps, f.children)
  {
    var r := ps[f.prod];
    var t := Finished(eps, ps, f);
    assert r.rhs[..f.idx] == r.rhs;
    assert |Roots(f.children)| == |f.children|;
    if r.rhs == [] {
      assert Roots(t.children) == [eps];
      FrontierAppend(eps, f.children, Node(eps, []));
      LeafFrontier(eps, eps);
    }
    assert r in g.rules && r.lhs == t.value && Roots(t.children) == RightSide(eps, r.rhs);
  }

  /** A finished node is handed to its parent. */
  lemma BuildClose(g: CFG, eps: Symbol, ps: seq<Rule>, u: Word, lower: seq<Frame>, p: Frame, f: Frame, pos: nat, next: nat)
    requires Building(g, eps, ps, u, lower + [p] + [f], pos, next) && f.prod < |ps| && f.idx == |ps[f.prod].rhs|
    ensures Building(g, eps, ps, u, lower + [Frame(p.value, p.children + [Finished(eps, ps, f)], p.idx + 1, p.prod)], pos, next)
  {
    hide Todo, Below, Spelled, Replays, FollowsRules, Frontier, FrontierOf, FramesOk, FrameOk, WaitsFor, Finished;
    var stack := lower + [p] + [f];
    var t := Finished(eps, ps, f);
    var p' := Frame(p.value, p.children + [t], p.idx + 1, p.prod);
    assert t.value == f.value by { FinishedValue(eps, ps, f); }
    TopFrame(g, eps, ps, u, stack, pos, next);
    CloseFrames(g, eps, ps, lower, p, f);
    FinishedIsTree(g, eps, ps, f);
    AddChild(g, eps, ps, p, t);
    ReplaceTop(g, eps, ps, lower, p, p');
    TopOf(eps, ps, lower + [p], f);
    TopOf(eps, ps, lower, p);
    TopOf(eps, ps, lower, p');
    assert RestFrom(ps, f, f.idx) == [];
    assert [] + Below(ps, lower + [p]) == Below(ps, lower + [p]);
    FrontierAppend(eps, p.children, t);
    Associate(Spelled(eps, lower), FrontierOf(eps, p.children), FrontierOf(eps, f.children));
    assert (lower + [p'])[0].value == stack[0].value;
  }

  lemma FinishedValue(eps: Symbol, ps: seq<Rule>, f: Frame)
    ensures Finished(eps, ps, f).value == f.value
  {
  }

  lemma CloseFrames(g: CFG, eps: Symbol, ps: seq<Rule>, lower: seq<Frame>, p: Frame, f: Frame)
    requires FramesOk(g, eps, ps, lower + [p] + [f])
    ensures FramesOk(g, eps, ps, lower + [p]) && FrameOk(g, eps, ps, p) && FrameOk(g, eps, ps, f) && WaitsFor(ps, p, f.value)
  {
    hide FrameOk, WaitsFor;
    var stack, stack' := lower + [p] + [f], lower + [p];
    assert FrameOk(g, eps, ps, stack[|lower|]) && FrameOk(g, eps, ps, stack[|lower| + 1]) && WaitsFor(ps, stack[|lower|], stack[|lower| + 1].value);
    forall i | 0 <= i < |stack'| ensures FrameOk(g, eps, ps, stack'[i]) {
      assert FrameOk(g, eps, ps, stack[i]);
    }
    forall i | 0 <= i < |stack'| - 1 ensures WaitsFor(ps, stack'[i], stack'[i + 1].value) {
      assert WaitsFor(ps, stack[i], stack[i + 1].value);
    }
  }

  lemma LeafFrame(g: CFG, eps: Symbol, ps: seq<Rule>, f: Frame, s: Symbol)
    requires FrameOk(g, eps, ps, f) && WaitsFor(ps, f, s) && s in g.terminals
    ensures FrameOk(g, eps, ps, Frame(f.value, f.children + [Node(s, [])], f.idx + 1, f.prod))
  {
    AddChild(g, eps, ps, f, Node(s, []));
  }

  lemma AddChild(g: CFG, eps: Symbol, ps: seq<Rule>, f: Frame, t: Tree)
    requires FrameOk(g, eps, ps, f) && WaitsFor(ps, f, t.value) && FollowsRules(g, eps, t)
    ensures FrameOk(g, eps, ps, Frame(f.value, f.children + [t], f.idx + 1, f.prod))
  {
    var rhs := ps[f.prod].rhs;
    assert rhs[..f.idx + 1] == rhs[..f.idx] + [t.value];
    assert Roots(f.children + [t]) == Roots(f.children) + [t.value];
  }

  lemma ReplaceTop(g: CFG, eps: Symbol, ps: seq<Rule>, lower: seq<Frame>, f: Frame, f': Frame)
    requires FramesOk(g, eps, ps, lower + [f]) && FrameOk(g, eps, ps, f') && f'.value == f.value
    ensures FramesOk(g, eps, ps, lower + [f'])
  {
    hide FrameOk, WaitsFor;
    var stack, stack' := lower + [f], lower + [f'];
    forall i | 0 <= i < |stack'| ensures FrameOk(g, eps, ps, stack'[i]) {
      assert FrameOk(g, eps, ps, stack[i]);
    }
    forall i | 0 <= i < |stack'| - 1 ensures WaitsFor(ps, stack'[i], stack'[i + 1].value) {
      assert WaitsFor(ps, stack[i], stack[i + 1].value);
    }
  }

  lemma BuildDone(g: CFG, eps: Symbol, ps: seq<Rule>, u: Word, f: Frame, pos: nat, next: nat)
    requires Building(g, eps, ps, u, [f], pos, next) && f.prod < |ps| && f.idx == |ps[f.prod].rhs|
    ensures Finished(eps, ps, f).value == g.start && FollowsRules(g, eps, Finished(eps, ps, f)) && Frontier(eps, Finished(eps, ps, f)) == u
  {
    var lower: seq<Frame> := [];
    assert lower + [f] == [f];
    TopFrame(g, eps, ps, u, [f], pos, next);
    TopOf(eps, ps, lower, f);
    FinishedIsTree(g, eps, ps, f);
    assert RestFrom(ps, f, f.idx) + Below(ps, lower) == [];
    assert u[pos..] == [];
    assert u[..pos] == u;
    assert Spelled(eps, lower) + FrontierOf(eps, f.children) == FrontierOf(eps, f.children);
  }

  /** Works the productions off like the run did, with a stack of half-built nodes. */
  method MakeParseTree(g: CFG, eps: Symbol, ps: seq<Rule>, word: Word) returns (tree: Tree)
    requires g.Valid() && g.terminals !! g.nonTerminals && eps !in g.terminals && word != []
    requires (forall l :: l in word ==> l in g.terminals) && Replays(g, [g.start], ps, word[..|word| - 1])
    ensures tree.value == g.start && FollowsRules(g, eps, tree) && Frontier(eps, tree) == word[..|word| - 1]
  {
    hide Replays, FollowsRules, Frontier, Building, FrameOk, Finished;
    ghost var u := word[..|word| - 1];
    BuildStart(g, eps, ps, u);
    var stack := [Frame(g.start, [], 0, 0)];
    var wordPosition, nextProduction := 0, 0;
    TopFrame(g, eps, ps, u, stack, 0, 0);
    while wordPosition < |word|
      invariant Building(g, eps, ps, u, stack, wordPosition, nextProduction)
      invariant stack != [] && wordPosition <= |u| && nextProduction < |ps|
      decreases |u| - wordPosition + |ps| - nextProduction, |stack|
    {
      var f, lower := stack[|stack| - 1], stack[..|stack| - 1];
      assert stack == lower + [f];
      TopFrame(g, eps, ps, u, stack, wordPosition, nextProduction);
      FrameFacts(g, eps, ps, f);
      var product := ps[f.prod].rhs;
      if f.idx == |product| {
        if |stack| == 1 {
          BuildDone(g, eps, ps, u, f, wordPosition, nextProduction);
          return Finished(eps, ps, f);
        }
        var p := lower[|lower| - 1];
        assert lower == lower[..|lower| - 1] + [p];
        BuildClose(g, eps, ps, u, lower[..|lower| - 1], p, f, wordPosition, nextProduction);
        stack := lower[..|lower| - 1] + [Frame(p.value, p.children + [Finished(eps, ps, f)], p.idx + 1, p.prod)];
      } else {
        var s := product[f.idx];
        if s in g.terminals {
          BuildLeaf(g, eps, ps, u, lower, f, wordPosition, nextProduction, s);
        }
        if s == word[wordPosition] {
          stack := lower + [Frame(f.value, f.children + [Node(s, [])], f.idx + 1, f.prod)];
          wordPosition := wordPosition + 1;
        } else {
          BuildOpen(g, eps, ps, u, lower, f, wordPosition, nextProduction, s);
          nextProduction := nextProduction + 1;
          stack := stack + [Frame(s, [], 0, nextProduction)];
        }
      }
    }
    assert false;
    return Node(g.start, []);
  }

  lemma FrameFacts(g: CFG, eps: Symbol, ps: seq<Rule>, f: Frame)
    requires FrameOk(g, eps, ps, f)
    ensures f.prod < |ps| && f.idx <= |ps[f.prod].rhs|
    ensures f.idx < |ps[f.prod].rhs| ==> WaitsFor(ps, f, ps[f.prod].rhs[f.idx])
  {
  }
}
