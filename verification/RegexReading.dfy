/** Parsing regular expressions from text: what is accepted becomes an expression, and printing is undone. */
module RegexReading {
  import opened Words
  import opened Grammar
  import opened CfgSets
  import opened Ll1
  import opened Regexes
  import opened RegexText
  import opened RegexSyntax
  import opened RegexGrammar
  import opened RegexParse
  import LeftAssoc
  import Parser
  import ParseTree
  import Unambiguous

  // ---------- accepted tokens become an expression ----------

  /** What one symbol of a right side contributes to its node, and the tokens it took. */
  datatype Part = Leaf(token: Token) | Child(node: PNode, toks: seq<Token>)

  function WithPart(p: Part, c: Collected): Collected {
    match p
    case Leaf(t) => WithLetter(t, c)
    case Child(n, _) => WithChild(n, c)
  }

  function Gather(parts: seq<Part>): Collected {
    if |parts| == 0 then Nothing() else WithPart(parts[0], Gather(parts[1..]))
  }

  function PartTokens(p: Part): seq<Token> {
    match p
    case Leaf(t) => [t]
    case Child(_, ts) => ts
  }

  function AllTokens(parts: seq<Part>): seq<Token> {
    if |parts| == 0 then [] else PartTokens(parts[0]) + AllTokens(parts[1..])
  }

  /** Identifier tokens carry their text, as the tokenizer makes them; every other token carries none. */
  predicate WellMade(t: Token) {
    (t.value == ID ==> t.data.Text?) && (t.value != ID ==> t.data.NoData?)
  }

  predicate Meaningful(n: PNode) {
    Kept(n) && ToRegex(n).Some?
  }

  /** A node that the walk makes for a nonterminal stands for an expression that its tokens mean, on the layer of the nonterminal. */
  ghost predicate GoodNode(s: Symbol, n: PNode, ts: seq<Token>) {
    if s == UNION2 then (n == PNode(Plain(s), []) && ts == []) || (Meaningful(n) && ts != [] && ts[0] == Plain(PLUS) && UnionOf(ts[1..], ToRegex(n).value))
    else if s == CONCAT2 then (n == PNode(Plain(s), []) && ts == []) || (Meaningful(n) && ts != [] && ts[0] == Plain(DOT) && TermOf(ts[1..], ToRegex(n).value))
    else if s == KSTAR2 then (n == PNode(Plain(s), []) && ts == []) || ((ts == [Plain(STAR)] || ts == [Plain(BANG)]) && n == PNode(ts[0], []))
    else
      && Meaningful(n)
      && (s == UNION ==> UnionOf(ts, ToRegex(n).value)) && (s == CONCAT ==> TermOf(ts, ToRegex(n).value))
      && (s == KSTAR ==> FactorOf(ts, ToRegex(n).value)) && (s == BRACES || s == TUPLE ==> AtomOf(ts, ToRegex(n).value))
  }

  ghost predicate GoodPart(s: Symbol, p: Part) {
    match p
    case Leaf(t) => s in Terminals() && t.value == s && WellMade(t)
    case Child(n, ts) => s in NonTerminals() && GoodNode(s, n, ts)
  }

  ghost predicate GoodParts(rhs: Word, parts: seq<Part>) {
    |parts| == |rhs| && forall i :: 0 <= i < |rhs| ==> GoodPart(rhs[i], parts[i])
  }

  lemma GatherOne(p: Part)
    ensures Gather([p]) == WithPart(p, Nothing()) && AllTokens([p]) == PartTokens(p)
  {
    assert [p][1..] == [];
  }

  lemma GatherMore(p: Part, parts: seq<Part>)
    ensures Gather([p] + parts) == WithPart(p, Gather(parts)) && AllTokens([p] + parts) == PartTokens(p) + AllTokens(parts)
  {
    assert ([p] + parts)[1..] == parts;
  }

  lemma GatherTwo(p: Part, q: Part)
    ensures Gather([p, q]) == WithPart(p, WithPart(q, Nothing())) && AllTokens([p, q]) == PartTokens(p) + PartTokens(q)
  {
    assert [p, q] == [p] + [q];
    GatherMore(p, [q]);
    GatherOne(q);
  }

  lemma GatherThree(p: Part, q: Part, r: Part)
    ensures Gather([p, q, r]) == WithPart(p, WithPart(q, WithPart(r, Nothing())))
    ensures AllTokens([p, q, r]) == PartTokens(p) + (PartTokens(q) + PartTokens(r))
  {
    assert [p, q, r] == [p] + [q, r];
    GatherMore(p, [q, r]);
    GatherTwo(q, r);
  }

  /** A node that follows a rule is good for the left side of the rule. */
  lemma GoodRule(r: Rule, parts: seq<Part>)
    requires RuleCases(r) && GoodParts(r.rhs, parts)
    ensures GoodNode(r.lhs, Finish(r.lhs, Gather(parts)).node, AllTokens(parts))
  {
    hide Rules, RuleCases, Gather, AllTokens, Terminals, NonTerminals;
    if |r.rhs| == 0 {
      EmptyRuleNode(r, parts);
    } else if |r.rhs| == 1 {
      assert parts == [parts[0]];
      GatherOne(parts[0]);
      SingleRuleNode(r, parts[0]);
    } else if |r.rhs| == 2 {
      assert parts == [parts[0], parts[1]];
      GatherTwo(parts[0], parts[1]);
      PairRuleNode(r, parts[0], parts[1]);
    } else if |r.rhs| == 3 {
      assert parts == [parts[0], parts[1], parts[2]];
      GatherThree(parts[0], parts[1], parts[2]);
      TripleRuleNode(r, parts[0], parts[1], parts[2]);
    } else {
      TupleRuleNode(r, parts);
    }
  }

  lemma SymbolKinds()
    ensures forall s {:trigger s in Terminals()} {:trigger s in NonTerminals()} :: s in Terminals() ==> s !in NonTerminals()
    ensures PLUS in Terminals() && DOT in Terminals() && LP in Terminals() && RP in Terminals()
    ensures CONCAT in NonTerminals() && CONCAT2 in NonTerminals() && UNION in NonTerminals() && UNION2 in NonTerminals()
    ensures KSTAR in NonTerminals() && KSTAR2 in NonTerminals() && BRACES in NonTerminals() && TUPLE in NonTerminals()
  {
  }

  lemma EmptyRuleNode(r: Rule, parts: seq<Part>)
    requires RuleCases(r) && |r.rhs| == 0 && |parts| == 0
    ensures GoodNode(r.lhs, Finish(r.lhs, Gather(parts)).node, AllTokens(parts))
  {
  }

  lemma SingleRuleNode(r: Rule, p: Part)
    requires RuleCases(r) && |r.rhs| == 1 && GoodPart(r.rhs[0], p)
    ensures GoodNode(r.lhs, Finish(r.lhs, WithPart(p, Nothing())).node, PartTokens(p))
  {
    hide UnionOf, TermOf, FactorOf;
  }

  /** An operand and its tail, or an atom and its mark. */
  lemma PairRuleNode(r: Rule, p: Part, q: Part)
    requires RuleCases(r) && |r.rhs| == 2 && GoodPart(r.rhs[0], p) && GoodPart(r.rhs[1], q)
    ensures GoodNode(r.lhs, Finish(r.lhs, WithPart(p, WithPart(q, Nothing()))).node, PartTokens(p) + PartTokens(q))
  {
    hide Rules, Terminals, NonTerminals, UnionOf, TermOf, FactorOf, AtomOf, ToRegex;
    SymbolKinds();
    var e := ToRegex(p.node).value;
    if q.toks == [] {
      assert p.toks + q.toks == p.toks;
      OneTerm(p.toks, e);
      AloneIsKept(r.lhs, p.node, q.node);
    } else if r.lhs == UNION {
      JoinTerms(p.node, p.toks, q.node, q.toks);
      BothAreKept(UNION, p.node, q.node);
      UnionMeans(UNION, p.node, q.node, Union(e, ToRegex(q.node).value));
    } else if r.lhs == CONCAT {
      JoinFactors(p.node, p.toks, q.node, q.toks);
      BothAreKept(CONCAT, p.node, q.node);
      ConcatMeans(CONCAT, p.node, q.node, Concat(e, ToRegex(q.node).value));
    } else {
      Marked(p.toks, e);
      MarkMeans(p.node, q.node, e);
    }
  }

  /** Before an empty tail, a node stays as it is. */
  lemma AloneIsKept(s: Symbol, n: PNode, m: PNode)
    requires Kept(n) && s != TUPLE && m.children == [] && m.token.value != STAR && m.token.value != BANG
    ensures Finish(s, WithChild(n, WithChild(m, Nothing()))).node == n
  {
    assert [n] + [] == [n];
  }

  lemma BothAreKept(s: Symbol, n: PNode, m: PNode)
    requires Kept(n) && Kept(m)
    ensures Finish(s, WithChild(n, WithChild(m, Nothing()))).node == PNode(Plain(s), [n, m])
  {
    assert [n] + ([m] + []) == [n, m];
  }

  lemma MarkMeans(n: PNode, m: PNode, e: Regex)
    requires Means(n, e) && (m == PNode(Plain(STAR), []) || m == PNode(Plain(BANG), []))
    ensures Means(Finish(KSTAR, WithChild(n, WithChild(m, Nothing()))).node, if m.token == Plain(STAR) then Star(e) else Plus(e))
  {
  }

  lemma JoinTerms(n: PNode, a: seq<Token>, m: PNode, b: seq<Token>)
    requires Meaningful(n) && TermOf(a, ToRegex(n).value) && Meaningful(m) && b != [] && b[0] == Plain(PLUS) && UnionOf(b[1..], ToRegex(m).value)
    ensures UnionOf(a + b, Union(ToRegex(n).value, ToRegex(m).value))
  {
    hide UnionOf, TermOf, ToRegex;
    MoreTerms(a, ToRegex(n).value, b[1..], ToRegex(m).value);
    assert b == [Plain(PLUS)] + b[1..];
  }

  lemma JoinFactors(n: PNode, a: seq<Token>, m: PNode, b: seq<Token>)
    requires Meaningful(n) && FactorOf(a, ToRegex(n).value) && Meaningful(m) && b != [] && b[0] == Plain(DOT) && TermOf(b[1..], ToRegex(m).value)
    ensures TermOf(a + b, Concat(ToRegex(n).value, ToRegex(m).value))
  {
    hide FactorOf, TermOf, ToRegex;
    MoreFactors(a, ToRegex(n).value, b[1..], ToRegex(m).value);
    assert b == [Plain(DOT)] + b[1..];
  }

  /** A mark, an operand and its tail, or a group. */
  lemma TripleRuleNode(r: Rule, o: Part, p: Part, q: Part)
    requires RuleCases(r) && |r.rhs| == 3 && GoodPart(r.rhs[0], o) && GoodPart(r.rhs[1], p) && GoodPart(r.rhs[2], q)
    ensures GoodNode(r.lhs, Finish(r.lhs, WithPart(o, WithPart(p, WithPart(q, Nothing())))).node, PartTokens(o) + (PartTokens(p) + PartTokens(q)))
  {
    hide Rules, Terminals, NonTerminals, UnionOf, TermOf, FactorOf, AtomOf, ToRegex;
    SymbolKinds();
    var e := ToRegex(p.node).value;
    assert (PartTokens(o) + (PartTokens(p) + PartTokens(q)))[1..] == PartTokens(p) + PartTokens(q);
    if r.lhs == BRACES {
      Grouped(p.toks, e);
    } else if q.toks == [] {
      assert p.toks + q.toks == p.toks;
      OneTerm(p.toks, e);
      AloneIsKept(r.lhs, p.node, q.node);
    } else if r.lhs == UNION2 {
      JoinTerms(p.node, p.toks, q.node, q.toks);
      BothAreKept(UNION2, p.node, q.node);
      UnionMeans(UNION2, p.node, q.node, Union(e, ToRegex(q.node).value));
    } else {
      JoinFactors(p.node, p.toks, q.node, q.toks);
      BothAreKept(CONCAT2, p.node, q.node);
      ConcatMeans(CONCAT2, p.node, q.node, Concat(e, ToRegex(q.node).value));
    }
  }

  lemma TupleRuleNode(r: Rule, parts: seq<Part>)
    requires RuleCases(r) && |r.rhs| > 3 && GoodParts(r.rhs, parts)
    ensures GoodNode(r.lhs, Finish(r.lhs, Gather(parts)).node, AllTokens(parts))
  {
    hide Gather, AllTokens, GoodNode, WithLetter, UnionOf, AtomOf, ToRegex;
    assert r.rhs == [LT, ID, COMMA, ID, GT] && r.lhs == TUPLE;
    TupleLeaf(r.rhs, parts, 0);
    TupleLeaf(r.rhs, parts, 1);
    TupleLeaf(r.rhs, parts, 2);
    TupleLeaf(r.rhs, parts, 3);
    TupleLeaf(r.rhs, parts, 4);
    var a, b := parts[1].token.data.text, parts[3].token.data.text;
    var p, q := Leaf(Token(ID, Text(a))), Leaf(Token(ID, Text(b)));
    assert parts == [Leaf(Plain(LT)), p, Leaf(Plain(COMMA)), q, Leaf(Plain(GT))];
    TupleGathers(p, q);
    TupleIsGood(a, b);
  }

  lemma TupleLeaf(rhs: Word, parts: seq<Part>, i: nat)
    requires i < |rhs| && GoodParts(rhs, parts) && (rhs[i] == LT || rhs[i] == COMMA || rhs[i] == GT || rhs[i] == ID)
    ensures parts[i].Leaf?
    ensures rhs[i] != ID ==> parts[i] == Leaf(Plain(rhs[i]))
    ensures rhs[i] == ID ==> parts[i].token.data.Text? && parts[i] == Leaf(Token(ID, Text(parts[i].token.data.text)))
  {
    hide GoodNode;
    assert GoodPart(rhs[i], parts[i]);
  }

  lemma TupleGathers(p: Part, q: Part)
    ensures
      var parts := [Leaf(Plain(LT)), p, Leaf(Plain(COMMA)), q, Leaf(Plain(GT))];
      && Gather(parts) == WithLetter(Plain(LT), WithPart(p, WithLetter(Plain(COMMA), WithPart(q, WithLetter(Plain(GT), Nothing())))))
      && AllTokens(parts) == [Plain(LT)] + (PartTokens(p) + ([Plain(COMMA)] + (PartTokens(q) + [Plain(GT)])))
  {
    hide Gather, AllTokens, WithLetter;
    var l, c, g := Leaf(Plain(LT)), Leaf(Plain(COMMA)), Leaf(Plain(GT));
    GatherThree(c, q, g);
    GatherMore(p, [c, q, g]);
    assert [p] + [c, q, g] == [p, c, q, g] && [l] + [p, c, q, g] == [l, p, c, q, g];
    GatherMore(l, [p, c, q, g]);
  }

  lemma TupleIsGood(a: Word, b: Word)
    ensures
      var x, y := Token(ID, Text(a)), Token(ID, Text(b));
      GoodNode(TUPLE, Finish(TUPLE, WithLetter(Plain(LT), WithLetter(x, WithLetter(Plain(COMMA), WithLetter(y, WithLetter(Plain(GT), Nothing())))))).node,
               [Plain(LT)] + ([x] + ([Plain(COMMA)] + ([y] + [Plain(GT)]))))
  {
    var x, y := Token(ID, Text(a)), Token(ID, Text(b));
    var c := WithLetter(Plain(LT), WithLetter(x, WithLetter(Plain(COMMA), WithLetter(y, WithLetter(Plain(GT), Nothing())))));
    assert c.children == [PNode(x, []), PNode(y, [])];
    assert [Plain(LT)] + ([x] + ([Plain(COMMA)] + ([y] + [Plain(GT)]))) == [Plain(LT), x, Plain(COMMA), y, Plain(GT)];
    hide UnionOf;
  }

  // ---------- the walk on any accepted token list ----------

  /** The values of the tokens from position j on, without the end marker. */
  function Tail(w: seq<Token>, j: nat): Word
    requires j < |w|
  {
    Values(w[j..|w| - 1])
  }

  lemma TailStep(w: seq<Token>, j: nat)
    requires j < |w| && Tail(w, j) != []
    ensures j + 1 < |w| && Tail(w, j)[0] == w[j].value && Tail(w, j)[1..] == Tail(w, j + 1)
  {
  }

  predicate InputOk(w: seq<Token>) {
    w != [] && Letterwise(w) && forall t :: t in w ==> WellMade(t)
  }

  lemma TakeRule(ps: seq<Rule>, k: nat, s: Symbol, rest: Word, u: Word)
    requires k <= |ps| && s in NonTerminals() && Replays(RegexCfg(), [s] + rest, ps[k..], u)
    ensures k < |ps| && RuleCases(ps[k]) && ps[k].lhs == s && Replays(RegexCfg(), ps[k].rhs + rest, ps[k + 1..], u)
    ensures forall x :: x in ps[k].rhs ==> x in Terminals() || x in NonTerminals()
  {
    hide Replays, Rules, RuleCases;
    CfgUsable();
    ParseTree.ReplayRule(RegexCfg(), s, rest, ps[k..], u);
    assert ps[k..][0] == ps[k] && ps[k..][1..] == ps[k + 1..];
    RulesAreCases(ps[k]);
    CaseSymbols(ps[k]);
  }

  lemma TakeLetter(ps: seq<Rule>, s: Symbol, rest: Word, u: Word)
    requires s in Terminals() && Replays(RegexCfg(), [s] + rest, ps, u)
    ensures u != [] && u[0] == s && Replays(RegexCfg(), rest, ps, u[1..])
  {
    hide Replays, Rules;
    ParseTree.ReplayLetter(RegexCfg(), s, rest, ps, u);
  }

  lemma NoParts()
    ensures Gather([]) == Nothing() && AllTokens([]) == [] && GoodParts([], [])
  {
  }

  lemma MoreParts(s: Symbol, p: Part, rhs: Word, parts: seq<Part>)
    requires GoodPart(s, p) && GoodParts(rhs, parts)
    ensures GoodParts([s] + rhs, [p] + parts)
  {
    hide GoodPart;
  }

  /** A part leaves the counters alone. */
  lemma PartCounters(p: Part, c: Collected, k: nat, j: nat)
    ensures WithPart(p, c.(k := k, j := j)) == WithPart(p, c).(k := k, j := j)
  {
  }

  lemma {:induction false} WalkBuilds(ps: seq<Rule>, w: seq<Token>, k: nat, j: nat, s: Symbol, rest: Word) returns (b: Built)
    requires InputOk(w) && s in NonTerminals() && k <= |ps| && j < |w| && Replays(RegexCfg(), [s] + rest, ps[k..], Tail(w, j))
    ensures Build(ps, w, k, j) == Some(b) && k < b.k <= |ps| && j <= b.j < |w| && GoodNode(s, b.node, w[j..b.j])
    ensures Replays(RegexCfg(), rest, ps[b.k..], Tail(w, b.j))
    decreases |ps| - k, 0
  {
    hide Replays, Rules, RuleCases, Terminals, NonTerminals, InputOk, GoodNode, GoodParts, Gather, AllTokens, Tail, ToRegex;
    TakeRule(ps, k, s, rest, Tail(w, j));
    var c, parts := WalkCollects(ps, w, k + 1, j, ps[k].rhs, rest);
    GoodRule(ps[k], parts);
    b := Finish(s, c);
    assert b.node == Finish(s, Gather(parts)).node && AllTokens(parts) == w[j..b.j];
  }

  lemma {:induction false} WalkCollects(ps: seq<Rule>, w: seq<Token>, k: nat, j: nat, rhs: Word, rest: Word) returns (c: Collected, parts: seq<Part>)
    requires InputOk(w) && k <= |ps| && j < |w| && Replays(RegexCfg(), rhs + rest, ps[k..], Tail(w, j))
    requires forall x :: x in rhs ==> x in Terminals() || x in NonTerminals()
    ensures Collect(ps, w, rhs, k, j) == Some(c) && k <= c.k <= |ps| && j <= c.j < |w|
    ensures c == Gather(parts).(k := c.k, j := c.j) && GoodParts(rhs, parts) && AllTokens(parts) == w[j..c.j]
    ensures Replays(RegexCfg(), rest, ps[c.k..], Tail(w, c.j))
    decreases |ps| - k, 1 + |rhs|
  {
    hide Replays, Rules, RuleCases, Terminals, NonTerminals, Tail, Build, ToRegex, GoodNode, GoodParts, Letterwise, WellMade, Gather, AllTokens, WithLetter, WithChild;
    if |rhs| == 0 {
      c, parts := Collected([], false, false, k, j), [];
      assert rhs == [] && rhs + rest == rest;
      NoParts();
    } else {
      var s, more := rhs[0], rhs[1..];
      assert rhs == [s] + more && rhs + rest == [s] + (more + rest);
      assert s in rhs && forall x :: x in more ==> x in rhs;
      if s in Terminals() {
        TakeLetter(ps[k..], s, more + rest, Tail(w, j));
        TailStep(w, j);
        var d, qs := WalkCollects(ps, w, k, j + 1, more, rest);
        c, parts := WithLetter(w[j], d), [Leaf(w[j])] + qs;
        PartCounters(Leaf(w[j]), Gather(qs), d.k, d.j);
        GatherMore(Leaf(w[j]), qs);
        assert WellMade(w[j]);
        MoreParts(s, Leaf(w[j]), more, qs);
        assert [w[j]] + w[j + 1..d.j] == w[j..d.j];
      } else {
        var b := WalkBuilds(ps, w, k, j, s, more + rest);
        NotALetter(s, w, j);
        var d, qs := WalkCollects(ps, w, b.k, b.j, more, rest);
        c, parts := WithChild(b.node, d), [Child(b.node, w[j..b.j])] + qs;
        PartCounters(Child(b.node, w[j..b.j]), Gather(qs), d.k, d.j);
        GatherMore(Child(b.node, w[j..b.j]), qs);
        MoreParts(s, Child(b.node, w[j..b.j]), more, qs);
        assert w[j..b.j] + w[b.j..d.j] == w[j..d.j];
      }
    }
  }

  // ---------- parsing ----------

  /** The tokens are the productions' own, the walk gives a node, and e is what the node stands for. */
  ghost predicate ReadBy(w: seq<Token>, rs: seq<Rule>, e: Regex) {
    && w != [] && Replays(RegexCfg(), [UNION], rs, Tail(w, 0))
    && exists node, k, j :: Build(rs, w, 0, 0) == Some(Built(node, k, j)) && ToRegex(node) == Some(e)
  }

  /** The expression that a text means, before rotation: it renders tokens that mean it. */
  ghost predicate ReadsAs(text: Word, e: Regex) {
    exists ts :: Renders(text, ts) && UnionOf(ts, e)
  }

  /** A text is made of bytes: none of its characters has the number of a named token. */
  predicate IsText(text: Word) {
    forall i :: 0 <= i < |text| ==> text[i] < 256
  }

  lemma {:induction false} LexedTokens(text: Word)
    requires IsText(text)
    ensures Lex(text) != [] && (forall t :: t in Lex(text) ==> WellMade(t)) && Lex(text)[|Lex(text)| - 1] == Plain(EOF)
    decreases |text|
  {
    hide Quoted, UpToNul;
    if text == [] {
    } else if IsSpace(text[0]) {
      LexedTokens(text[1..]);
    } else if text[0] == QUOTE {
      var (name, rest) := Quoted(text[1..], false);
      QuotedRest(text[1..], false);
      LexedTokens(if rest == [] then [] else rest[1..]);
    } else if StartsWithNull(text) {
      LexedTokens(text[4..]);
    } else {
      LexedTokens(text[1..]);
    }
  }

  /** Accepted tokens are fit for the walk. */
  lemma AcceptedInput(w: seq<Token>)
    requires Accepted(RegexCfg(), Values(w)) && (forall t :: t in w ==> WellMade(t))
    ensures InputOk(w) && |Values(w)| == |w| && Letters(RegexCfg(), Tail(w, 0)) && Tail(w, 0) == Values(w)[..|w| - 1]
  {
    hide DerivesStar, Rules, Terminals, WellMade;
    assert w != [];
    assert Values(w[0..|w| - 1]) == Values(w)[..|w| - 1];
    assert EOF in Terminals() by { EofIsTerminal(); }
    forall t | t in w ensures t.value in Terminals() {
      var i :| 0 <= i < |w| && w[i] == t;
      assert Values(w)[i] == t.value;
      if i < |w| - 1 {
        assert Values(w)[..|w| - 1][i] == t.value;
        assert t.value in Values(w)[..|w| - 1];
      }
    }
  }

  lemma EofIsTerminal()
    ensures EOF in Terminals() && UNION in NonTerminals()
  {
  }

  /** Every list of productions that replays to the tokens gives an expression. */
  lemma ReplayReads(w: seq<Token>, rs: seq<Rule>) returns (e: Regex)
    requires InputOk(w) && Replays(RegexCfg(), [UNION], rs, Tail(w, 0))
    ensures ReadBy(w, rs, e) && Build(rs, w, 0, 0).Some? && ToRegex(Build(rs, w, 0, 0).value.node) == Some(e)
    ensures UnionOf(w[..|w| - 1], e)
  {
    hide Replays, Rules, Terminals, NonTerminals, InputOk, Tail, Build, ToRegex, UnionOf;
    EofIsTerminal();
    assert rs[0..] == rs && [UNION] + [] == [UNION];
    assert w != [] by { NonEmptyInput(w); }
    var b := WalkBuilds(rs, w, 0, 0, UNION, []);
    assert Meaningful(b.node);
    e := ToRegex(b.node).value;
    AllTaken(rs[b.k..], w, b.j);
    assert Build(rs, w, 0, 0) == Some(Built(b.node, b.k, b.j));
  }

  lemma NonEmptyInput(w: seq<Token>)
    requires InputOk(w)
    ensures w != []
  {
  }

  /** When nothing is left to derive, the walk is at the end marker. */
  lemma AllTaken(rs: seq<Rule>, w: seq<Token>, j: nat)
    requires j < |w| && Replays(RegexCfg(), [], rs, Tail(w, j))
    ensures j == |w| - 1
  {
    hide Rules;
    assert |Tail(w, j)| == |w| - 1 - j;
  }

  /** At most one expression can be read from a text. */
  lemma ReadingIsUnique(w: seq<Token>, rs: seq<Rule>, d: Regex, qs: seq<Rule>, e: Regex)
    requires ReadBy(w, rs, d) && ReadBy(w, qs, e) && Letters(RegexCfg(), Tail(w, 0))
    ensures rs == qs && d == e
  {
    hide Replays, Rules, Terminals, NonTerminals, Tail, Build, ToRegex, IsLl1, OneRuleEach, Usable, Letters, Declared;
    CfgUsable();
    RegexIsLl1();
    Ll1HasOneRuleEach(RegexCfg());
    Parser.UsableTerminals(RegexCfg(), EPS);
    Unambiguous.LeftmostDerivationIsUnique(RegexCfg(), EPS, Tail(w, 0), rs, qs);
  }

  // ---------- what tokens mean is what is read ----------

  /** Tokens of an expression are letters of the grammar, and none is the end marker. */
  predicate Inner(ts: seq<Token>) {
    forall t :: t in ts ==> t.value in Terminals() && t.value != EOF && WellMade(t)
  }

  lemma InnerMarks()
    ensures Inner([Plain(PLUS)]) && Inner([Plain(DOT)]) && Inner([Plain(STAR)]) && Inner([Plain(BANG)])
    ensures Inner([Plain(LP)]) && Inner([Plain(RP)]) && Inner([Plain(NULLTOKEN)])
    ensures forall a :: Inner([Token(ID, Text(a))])
    ensures forall a, b :: Inner([Plain(LT), Token(ID, Text(a)), Plain(COMMA), Token(ID, Text(b)), Plain(GT)])
  {
  }

  lemma InnerJoin(a: seq<Token>, b: seq<Token>)
    requires Inner(a) && Inner(b)
    ensures Inner(a + b)
  {
    hide Terminals, WellMade;
  }

  lemma {:induction false} UnionInner(ts: seq<Token>, e: Regex)
    requires UnionOf(ts, e)
    ensures Inner(ts)
    decreases |ts|, 3
  {
    hide Inner, UnionOf, TermOf;
    InnerMarks();
    if TermOf(ts, e) {
      TermInner(ts, e);
    } else {
      var a, b := SplitTerms(ts, e);
      TermInner(a, e.l);
      UnionInner(b, e.r);
      InnerJoin([Plain(PLUS)], b);
      InnerJoin(a, [Plain(PLUS)] + b);
    }
  }

  lemma {:induction false} TermInner(ts: seq<Token>, e: Regex)
    requires TermOf(ts, e)
    ensures Inner(ts)
    decreases |ts|, 2
  {
    hide Inner, FactorOf, TermOf;
    InnerMarks();
    if FactorOf(ts, e) {
      FactorInner(ts, e);
    } else {
      var a, b := SplitFactors(ts, e);
      FactorInner(a, e.l);
      TermInner(b, e.r);
      InnerJoin([Plain(DOT)], b);
      InnerJoin(a, [Plain(DOT)] + b);
    }
  }

  lemma {:induction false} FactorInner(ts: seq<Token>, e: Regex)
    requires FactorOf(ts, e)
    ensures Inner(ts)
    decreases |ts|, 1
  {
    hide Inner, FactorOf, AtomOf;
    InnerMarks();
    if AtomOf(ts, e) {
      AtomInner(ts, e);
    } else {
      var a := SplitMark(ts, e);
      AtomInner(a, e.child);
      InnerJoin(a, if e.Star? then [Plain(STAR)] else [Plain(BANG)]);
    }
  }

  lemma {:induction false} AtomInner(ts: seq<Token>, e: Regex)
    requires AtomOf(ts, e)
    ensures Inner(ts)
    decreases |ts|, 0
  {
    hide Inner, UnionOf;
    InnerMarks();
    if |ts| >= 2 && ts[0] == Plain(LP) && ts[|ts| - 1] == Plain(RP) && UnionOf(ts[1..|ts| - 1], e) {
      var a := SplitGroup(ts, e);
      UnionInner(a, e);
      InnerJoin(a, [Plain(RP)]);
      InnerJoin([Plain(LP)], a + [Plain(RP)]);
    }
  }

  /** Tokens that mean an expression, with the end marker, are accepted and read as the expression. */
  lemma MeaningIsRead(ts: seq<Token>, e: Regex) returns (rs: seq<Rule>)
    requires UnionOf(ts, e)
    ensures ReadBy(ts + [Plain(EOF)], rs, e) && Accepted(RegexCfg(), Values(ts + [Plain(EOF)]))
  {
    hide Rules, Terminals, NonTerminals, NodePiece, Build, ToRegex, Derives, UnionOf;
    var w := ts + [Plain(EOF)];
    var n;
    rs, n := UnionPiece(ts, e);
    PieceReplays(rs, ts, n);
    UnionInner(ts, e);
    EofIsTerminal();
    assert Letterwise(w);
    PieceBuilds(rs, ts, n, w);
    ValuesJoin(ts, [Plain(EOF)]);
    assert w[0..|w| - 1] == ts && Tail(w, 0) == Values(ts);
    assert Values(w)[..|w| - 1] == Values(ts);
    NoEndMarker(ts);
    ReplayDerives(RegexCfg(), [UNION], rs, Values(ts));
  }

  lemma NoEndMarker(ts: seq<Token>)
    requires Inner(ts)
    ensures EOF !in Values(ts)
  {
    hide Terminals;
  }

  /** Tokens mean one expression at most. */
  lemma MeaningIsUnique(ts: seq<Token>, d: Regex, e: Regex)
    requires UnionOf(ts, d) && UnionOf(ts, e)
    ensures d == e
  {
    hide ReadBy, UnionOf, Accepted, Inner, InputOk, Letters, Tail;
    var w := ts + [Plain(EOF)];
    var rs := MeaningIsRead(ts, d);
    var qs := MeaningIsRead(ts, e);
    UnionInner(ts, d);
    WithEndMarker(ts);
    AcceptedInput(w);
    ReadingIsUnique(w, rs, d, qs, e);
  }

  lemma WithEndMarker(ts: seq<Token>)
    requires Inner(ts)
    ensures forall t :: t in ts + [Plain(EOF)] ==> WellMade(t)
  {
    hide Terminals;
  }

  // ---------- printed expressions ----------

  lemma {:induction false} PrintedIsFactor(r: Regex)
    ensures FactorOf(PrintTokens(r), r)
    decreases r, 0
  {
    hide UnionOf, TermOf, FactorOf, AtomOf;
    match r
    case Tuple(a, b) =>
      assert AtomOf(PrintTokens(r), r) by { TupleIsAtom(a, b); }
      OneTerm(PrintTokens(r), r);
    case Union(x, y) =>
      PrintedIsFactor(x);
      PrintedIsUnion(y);
      OneTerm(PrintTokens(x), x);
      MoreTerms(PrintTokens(x), x, PrintTokens(y), y);
      var inner := PrintTokens(x) + ([Plain(PLUS)] + PrintTokens(y));
      Grouped(inner, r);
      assert [Plain(LP)] + (inner + [Plain(RP)]) == PrintTokens(r);
      OneTerm(PrintTokens(r), r);
    case Concat(x, y) =>
      PrintedIsFactor(x);
      PrintedIsFactor(y);
      OneTerm(PrintTokens(y), y);
      MoreFactors(PrintTokens(x), x, PrintTokens(y), y);
      var inner := PrintTokens(x) + ([Plain(DOT)] + PrintTokens(y));
      OneTerm(inner, r);
      Grouped(inner, r);
      assert [Plain(LP)] + (inner + [Plain(RP)]) == PrintTokens(r);
      OneTerm(PrintTokens(r), r);
    case Star(c) =>
      PrintedIsUnion(c);
      Grouped(PrintTokens(c), c);
      Marked([Plain(LP)] + (PrintTokens(c) + [Plain(RP)]), c);
      assert [Plain(LP)] + (PrintTokens(c) + [Plain(RP)]) + [Plain(STAR)] == PrintTokens(r);
    case Plus(c) =>
      PrintedIsUnion(c);
      Grouped(PrintTokens(c), c);
      Marked([Plain(LP)] + (PrintTokens(c) + [Plain(RP)]), c);
      assert [Plain(LP)] + (PrintTokens(c) + [Plain(RP)]) + [Plain(BANG)] == PrintTokens(r);
  }

  lemma TupleIsAtom(a: Word, b: Word)
    ensures AtomOf(PrintTokens(Tuple(a, b)), Tuple(a, b))
  {
    hide UnionOf;
  }

  lemma {:induction false} PrintedIsUnion(r: Regex)
    ensures UnionOf(PrintTokens(r), r)
    decreases r, 1
  {
    hide UnionOf, TermOf, FactorOf, AtomOf;
    PrintedIsFactor(r);
    OneTerm(PrintTokens(r), r);
  }

  /** A printed expression means itself. */
  lemma PrintedIsRead(r: Regex)
    requires AllWritable(r)
    ensures ReadsAs(Print(r), r)
  {
    hide UnionOf, Renders, PrintTokens, Print, AllWritable;
    LexPrinted(r);
    RendersIsLex(Print(r), PrintTokens(r));
    PrintedIsUnion(r);
  }

  lemma PieceReplays(rs: seq<Rule>, ts: seq<Token>, n: PNode)
    requires NodePiece(UNION, rs, ts, n)
    ensures Replays(RegexCfg(), [UNION], rs, Values(ts))
  {
    hide Rules, Terminals, NonTerminals, Builds;
    assert Completes([], [], []);
    assert [UNION] + [] == [UNION] && rs + [] == rs && Values(ts) + [] == Values(ts);
  }

  lemma PieceBuilds(rs: seq<Rule>, ts: seq<Token>, n: PNode, w: seq<Token>)
    requires NodePiece(UNION, rs, ts, n) && w == ts + [Plain(EOF)] && Letterwise(w)
    ensures Build(rs, w, 0, 0) == Some(Built(n, |rs|, |ts|))
  {
    hide Rules, Terminals, NonTerminals, Replaces, Build, Letterwise;
    assert rs[0..|rs|] == rs && w[0..|ts|] == ts;
    assert At(rs, 0, rs) && At(w, 0, ts);
  }

  /** Succeeds exactly on the texts of the grammar, and returns the expression that the text means, grouped to the left;
      so printing and parsing is the identity up to that. */
  method ParseRegex(text: Word) returns (r: Option<Regex>)
    requires IsText(text)
    ensures r.Some? <==> Accepted(RegexCfg(), Values(Lex(text)))
    ensures r.Some? ==> exists e :: ReadsAs(text, e) && r.value == LeftAssoc.ToLeftAssoc(e)
    ensures forall e :: ReadsAs(text, e) ==> r == Some(LeftAssoc.ToLeftAssoc(e))
    ensures forall e {:trigger Print(e)} :: AllWritable(e) && text == Print(e) ==> r == Some(LeftAssoc.ToLeftAssoc(e))
  {
    hide Rules, Terminals, NonTerminals, Build, ToRegex, Lex, Accepted, Replays, IsLl1, OneRuleEach, Halts, Reads, Usable, IsText, ReadBy, ReadsAs, Print, InputOk, Tail, Values, LeftAssoc.ToLeftAssoc, AllWritable, Letters, Renders, UnionOf;
    CfgUsable();
    RegexIsLl1();
    LexedTokens(text);
    var tokens := Tokenize(text);
    var p := new Parser.LlParser(RegexCfg(), EPS);
    ParserReady(p);
    forall e | AllWritable(e) && text == Print(e) ensures ReadsAs(text, e) {
      PrintedIsRead(e);
    }
    var accepted, productions := p.GenerateProductions(Values(tokens));
    if !accepted {
      forall e ensures !ReadsAs(text, e) {
        RejectedMeansNothing(text, tokens, e);
      }
      return None;
    }
    AcceptedInput(tokens);
    ghost var e0 := ReplayReads(tokens, productions);
    var node, k, j := MakeParseTree(productions, tokens, 0, 0);
    var e := ToRegex(node);
    r := Some(LeftAssoc.ToLeftAssoc(e.value));
    MeansOnly(text, tokens, e0);
  }

  lemma RejectedMeansNothing(text: Word, w: seq<Token>, e: Regex)
    requires !Accepted(RegexCfg(), Values(w)) && forall ts :: Renders(text, ts) ==> w == ts + [Plain(EOF)]
    ensures !ReadsAs(text, e)
  {
    hide Accepted, Renders, UnionOf, ReadBy;
    if ReadsAs(text, e) {
      var ts :| Renders(text, ts) && UnionOf(ts, e);
      var rs := MeaningIsRead(ts, e);
      assert false;
    }
  }

  lemma MeansOnly(text: Word, w: seq<Token>, e: Regex)
    requires w != [] && Renders(text, w[..|w| - 1]) && UnionOf(w[..|w| - 1], e)
    requires forall ts :: Renders(text, ts) ==> w == ts + [Plain(EOF)]
    ensures ReadsAs(text, e) && forall d :: ReadsAs(text, d) ==> d == e
  {
    hide Renders, UnionOf;
    forall d | ReadsAs(text, d) ensures d == e {
      var ts :| Renders(text, ts) && UnionOf(ts, d);
      assert ts == w[..|w| - 1];
      MeaningIsUnique(ts, d, e);
    }
  }

  lemma ParserReady(p: Parser.LlParser)
    requires p.Valid() && p.g == RegexCfg() && IsLl1(RegexCfg())
    ensures p.g.start == UNION && OneRuleEach(p.g) && forall word :: Halts(p.g, p.eps, p.delta, word)
  {
    hide IsLl1, OneRuleEach, IsTable, Usable, Rules, Halts;
    Ll1HasOneRuleEach(p.g);
    forall word ensures Halts(p.g, p.eps, p.delta, word) {
      AlwaysHalts(p.g, p.eps, p.delta, word);
    }
  }
}
