/** From tokens to regular expressions: the compressed parse tree and its reading. */
module RegexParse {
  import opened Words
  import opened Grammar
  import opened Ll1
  import opened Regexes
  import opened RegexText
  import opened RegexSyntax
  import opened RegexGrammar
  import ParseTree

  datatype PNode = PNode(token: Token, children: seq<PNode>)

  datatype Built = Built(node: PNode, k: nat, j: nat)

  /** The children collected for a right side, and whether a star or an exclamation mark was passed over. */
  datatype Collected = Collected(children: seq<PNode>, star: bool, excl: bool, k: nat, j: nat)

  predicate IsKept(s: Symbol) {
    s == ID || s == NULLTOKEN || s == STAR || s == BANG
  }

  function WithLetter(t: Token, c: Collected): Collected {
    if IsKept(t.value) then c.(children := [PNode(t, [])] + c.children) else c
  }

  function WithChild(n: PNode, c: Collected): Collected {
    Collected(
      if n.children != [] then [n] + c.children else c.children,
      c.star || n.token.value == STAR || n.token.value == BANG,
      c.excl || n.token.value == BANG, c.k, c.j)
  }

  /** A node with one child is replaced by it, unless a mark was passed over or the node is a tuple. */
  function Finish(lhs: Symbol, c: Collected): Built {
    Built(
      if |c.children| == 1 && !c.star && lhs != TUPLE then c.children[0]
      else PNode(Token(lhs, if c.excl then BangMark else NoData), c.children),
      c.k, c.j)
  }

  /** The node that production k makes from token j on; None where the source would read out of range. */
  function Build(ps: seq<Rule>, w: seq<Token>, k: nat, j: nat): (r: Option<Built>)
    ensures r.Some? ==> k < r.value.k <= |ps|
    decreases if k < |ps| then |ps| - k else 0, 0
  {
    if k >= |ps| then None
    else
      match Collect(ps, w, ps[k].rhs, k + 1, j)
      case None => None
      case Some(c) => Some(Finish(ps[k].lhs, c))
  }

  function Collect(ps: seq<Rule>, w: seq<Token>, rhs: Word, k: nat, j: nat): (r: Option<Collected>)
    requires k <= |ps|
    ensures r.Some? ==> k <= r.value.k <= |ps|
    decreases if k < |ps| then |ps| - k else 0, 1 + |rhs|
  {
    if rhs == [] then Some(Collected([], false, false, k, j))
    else if j >= |w| then None
    else if rhs[0] == w[j].value then
      match Collect(ps, w, rhs[1..], k, j + 1)
      case None => None
      case Some(c) => Some(WithLetter(w[j], c))
    else
      match Build(ps, w, k, j)
      case None => None
      case Some(b) =>
        match Collect(ps, w, rhs[1..], b.k, b.j)
        case None => None
        case Some(c) => Some(WithChild(b.node, c))
  }

  lemma BuildStep(ps: seq<Rule>, w: seq<Token>, k: nat, j: nat)
    requires Build(ps, w, k, j).Some?
    ensures k < |ps| && Collect(ps, w, ps[k].rhs, k + 1, j).Some?
    ensures Build(ps, w, k, j) == Some(Finish(ps[k].lhs, Collect(ps, w, ps[k].rhs, k + 1, j).value))
  {
  }

  lemma CollectStep(ps: seq<Rule>, w: seq<Token>, rhs: Word, k: nat, j: nat)
    requires k <= |ps| && Collect(ps, w, rhs, k, j).Some?
    ensures |rhs| == 0 ==> Collect(ps, w, rhs, k, j) == Some(Collected([], false, false, k, j))
    ensures |rhs| > 0 ==> j < |w|
    ensures |rhs| > 0 && rhs[0] == w[j].value ==>
      Collect(ps, w, rhs[1..], k, j + 1).Some? && Collect(ps, w, rhs, k, j) == Some(WithLetter(w[j], Collect(ps, w, rhs[1..], k, j + 1).value))
    ensures |rhs| > 0 && rhs[0] != w[j].value ==>
      && Build(ps, w, k, j).Some?
      && var b := Build(ps, w, k, j).value;
      && k < b.k <= |ps| && Collect(ps, w, rhs[1..], b.k, b.j).Some?
      && Collect(ps, w, rhs, k, j) == Some(WithChild(b.node, Collect(ps, w, rhs[1..], b.k, b.j).value))
  {
  }

  /** The recursive walk over the productions, with its counters k and j. */
  method MakeParseTree(ps: seq<Rule>, w: seq<Token>, k0: nat, j0: nat) returns (node: PNode, k: nat, j: nat)
    requires Build(ps, w, k0, j0).Some?
    ensures Build(ps, w, k0, j0) == Some(Built(node, k, j))
    decreases |ps| - k0
  {
    hide Build, Collect, WithLetter, WithChild, Joined;
    BuildStep(ps, w, k0, j0);
    var product := ps[k0].rhs;
    var children: seq<PNode>, skippedStar, isExcl := [], false, false;
    k, j := k0 + 1, j0;
    ghost var goal := Collect(ps, w, product, k0 + 1, j0).value;
    JoinStart(goal);
    assert product[0..] == product;
    for i := 0 to |product|
      invariant k0 < k <= |ps|
      invariant Collect(ps, w, product[i..], k, j).Some?
      invariant Joined(children, skippedStar, isExcl, Collect(ps, w, product[i..], k, j).value) == goal
    {
      ghost var rest := product[i..];
      assert rest[0] == product[i] && rest[1..] == product[i + 1..];
      CollectStep(ps, w, rest, k, j);
      if product[i] == w[j].value {
        JoinLetter(children, skippedStar, isExcl, w[j], Collect(ps, w, rest[1..], k, j + 1).value);
        if IsKept(w[j].value) {
          children := children + [PNode(w[j], [])];
        }
        j := j + 1;
      } else {
        var child;
        child, k, j := MakeParseTree(ps, w, k, j);
        JoinChild(children, skippedStar, isExcl, child, Collect(ps, w, rest[1..], k, j).value);
        if child.token.value == STAR || child.token.value == BANG {
          skippedStar := true;
        }
        if child.token.value == BANG {
          isExcl := true;
        }
        if child.children != [] {
          children := children + [child];
        }
      }
    }
    assert product[|product|..] == [];
    CollectStep(ps, w, [], k, j);
    JoinEnd(children, skippedStar, isExcl, k, j);
    var t := ps[k0].lhs;
    if |children| == 1 && !skippedStar && t != TUPLE {
      return children[0], k, j;
    }
    node := PNode(Token(t, if isExcl then BangMark else NoData), children);
  }

  lemma JoinStart(c: Collected)
    ensures Joined([], false, false, c) == c
  {
    assert [] + c.children == c.children;
  }

  lemma JoinEnd(children: seq<PNode>, star: bool, excl: bool, k: nat, j: nat)
    ensures Joined(children, star, excl, Collected([], false, false, k, j)) == Collected(children, star, excl, k, j)
  {
    assert children + [] == children;
  }

  function Joined(children: seq<PNode>, star: bool, excl: bool, c: Collected): Collected {
    Collected(children + c.children, star || c.star, excl || c.excl, c.k, c.j)
  }

  lemma JoinLetter(children: seq<PNode>, star: bool, excl: bool, t: Token, c: Collected)
    ensures Joined(children, star, excl, WithLetter(t, c)) == Joined(if IsKept(t.value) then children + [PNode(t, [])] else children, star, excl, c)
  {
    if IsKept(t.value) {
      assert children + ([PNode(t, [])] + c.children) == (children + [PNode(t, [])]) + c.children;
    }
  }

  lemma JoinChild(children: seq<PNode>, star: bool, excl: bool, n: PNode, c: Collected)
    ensures Joined(children, star, excl, WithChild(n, c))
      == Joined(if n.children != [] then children + [n] else children, star || n.token.value == STAR || n.token.value == BANG, excl || n.token.value == BANG, c)
  {
    if n.children != [] {
      assert children + ([n] + c.children) == (children + [n]) + c.children;
    }
  }

  /** The expression that a node stands for; None where the source returns nothing or reads out of range. */
  function ToRegex(n: PNode): Option<Regex> {
    if n.token.value == UNION || n.token.value == UNION2 then
      if |n.children| < 2 then None
      else
        var x, y := ToRegex(n.children[0]), ToRegex(n.children[1]);
        if x.Some? && y.Some? then Some(Union(x.value, y.value)) else None
    else if n.token.value == CONCAT || n.token.value == CONCAT2 then
      if |n.children| < 2 then None
      else
        var x, y := ToRegex(n.children[0]), ToRegex(n.children[1]);
        if x.Some? && y.Some? then Some(Concat(x.value, y.value)) else None
    else if n.token.value == KSTAR then
      if |n.children| < 1 then None
      else
        var c := ToRegex(n.children[0]);
        if c.None? then None else if n.token.data == BangMark then Some(Plus(c.value)) else Some(Star(c.value))
    else if n.token.value == TUPLE then
      if |n.children| == 1 then
        if n.children[0].token.value == NULLTOKEN then Some(Tuple([NUL], []))
        else if n.children[0].token.data.Text? then Some(Tuple(n.children[0].token.data.text, [])) else None
      else if |n.children| == 2 && n.children[0].token.data.Text? && n.children[1].token.data.Text? then
        Some(Tuple(n.children[0].token.data.text, n.children[1].token.data.text))
      else None
    else None
  }

  // ---------- pieces of a parse ----------

  function Values(ts: seq<Token>): Word {
    seq(|ts|, i requires 0 <= i < |ts| => ts[i].value)
  }

  lemma ValuesJoin(a: seq<Token>, b: seq<Token>)
    ensures Values(a + b) == Values(a) + Values(b)
  {
  }

  predicate Letterwise(w: seq<Token>) {
    forall t :: t in w ==> t.value in Terminals()
  }

  /** The slice of s that starts at i is a. */
  predicate At<T(==)>(s: seq<T>, i: nat, a: seq<T>) {
    i + |a| <= |s| && s[i..i + |a|] == a
  }

  lemma AtParts<T>(s: seq<T>, i: nat, a: seq<T>, b: seq<T>)
    requires At(s, i, a + b)
    ensures At(s, i, a) && At(s, i + |a|, b) && i + |a| + |b| <= |s|
  {
    assert s[i..i + |a|] == s[i..i + |a + b|][..|a|];
    assert s[i + |a|..i + |a| + |b|] == s[i..i + |a + b|][|a|..];
  }

  lemma AtFirst<T>(s: seq<T>, i: nat, x: T)
    requires At(s, i, [x])
    ensures i < |s| && s[i] == x
  {
    assert s[i..i + 1][0] == s[i];
  }

  ghost predicate Completes(rest: Word, rs: seq<Rule>, v: Word) {
    Replays(RegexCfg(), rest, rs, v)
  }

  /** The productions replay a right side to the tokens, in front of anything else. */
  ghost predicate Replaces(rhs: Word, prods: seq<Rule>, toks: seq<Token>) {
    forall rest, rs, v {:trigger Completes(rest, rs, v)} ::
      Completes(rest, rs, v) ==> Replays(RegexCfg(), rhs + rest, prods + rs, Values(toks) + v)
  }

  /** Wherever the productions and the tokens stand, with a token after them, the walk collects c. */
  ghost predicate Collects(rhs: Word, prods: seq<Rule>, toks: seq<Token>, c: Collected) {
    forall ps, w, k: nat, j: nat {:trigger At(ps, k, prods), At(w, j, toks)} ::
      At(ps, k, prods) && At(w, j, toks) && j + |toks| < |w| && Letterwise(w) ==>
        Collect(ps, w, rhs, k, j) == Some(c.(k := k + |prods|, j := j + |toks|))
  }

  ghost predicate Builds(prods: seq<Rule>, toks: seq<Token>, node: PNode) {
    forall ps, w, k: nat, j: nat {:trigger At(ps, k, prods), At(w, j, toks)} ::
      At(ps, k, prods) && At(w, j, toks) && j + |toks| < |w| && Letterwise(w) ==>
        Build(ps, w, k, j) == Some(Built(node, k + |prods|, j + |toks|))
  }

  /** The productions of a right side, its tokens, and what is collected for it. */
  ghost predicate PieceOf(rhs: Word, prods: seq<Rule>, toks: seq<Token>, c: Collected) {
    Replaces(rhs, prods, toks) && Collects(rhs, prods, toks, c)
  }

  /** The productions of a nonterminal, its tokens, and its node. */
  ghost predicate NodePiece(s: Symbol, prods: seq<Rule>, toks: seq<Token>, node: PNode) {
    Replaces([s], prods, toks) && Builds(prods, toks, node)
  }

  function Nothing(): Collected {
    Collected([], false, false, 0, 0)
  }

  lemma EmptyPiece()
    ensures PieceOf([], [], [], Nothing())
  {
    hide Replays;
    forall rest, rs, v | Completes(rest, rs, v) ensures Replays(RegexCfg(), [] + rest, [] + rs, Values([]) + v) {
      assert [] + rest == rest && [] + rs == rs && Values([]) + v == v;
    }
  }

  lemma ReplayLetterFirst(t: Symbol, rest: Word, rs: seq<Rule>, v: Word)
    requires t in Terminals() && Replays(RegexCfg(), rest, rs, v)
    ensures Replays(RegexCfg(), [t] + rest, rs, [t] + v)
  {
    hide Rules, Terminals;
    assert ([t] + rest)[1..] == rest && ([t] + v)[1..] == v;
  }

  lemma ReplayRuleFirst(r: Rule, rest: Word, rs: seq<Rule>, v: Word)
    requires r in Rules() && r.lhs in NonTerminals() && Replays(RegexCfg(), r.rhs + rest, rs, v)
    ensures Replays(RegexCfg(), [r.lhs] + rest, [r] + rs, v)
  {
    hide Rules;
    assert ([r.lhs] + rest)[1..] == rest && ([r] + rs)[1..] == rs;
  }

  lemma LetterReplaces(t: Token, rhs: Word, prods: seq<Rule>, toks: seq<Token>)
    requires t.value in Terminals() && Replaces(rhs, prods, toks)
    ensures Replaces([t.value] + rhs, prods, [t] + toks)
  {
    hide Replays, Rules, Terminals;
    ValuesJoin([t], toks);
    forall rest, rs, v | Completes(rest, rs, v)
      ensures Replays(RegexCfg(), ([t.value] + rhs) + rest, prods + rs, Values([t] + toks) + v)
    {
      ReplayLetterFirst(t.value, rhs + rest, prods + rs, Values(toks) + v);
      assert [t.value] + (rhs + rest) == ([t.value] + rhs) + rest;
      assert [t.value] + (Values(toks) + v) == Values([t] + toks) + v;
    }
  }

  lemma LetterCollects(t: Token, rhs: Word, prods: seq<Rule>, toks: seq<Token>, c: Collected)
    requires Collects(rhs, prods, toks, c)
    ensures Collects([t.value] + rhs, prods, [t] + toks, WithLetter(t, c))
  {
    hide Letterwise;
    forall ps, w, k: nat, j: nat | At(ps, k, prods) && At(w, j, [t] + toks) && j + |[t] + toks| < |w| && Letterwise(w)
      ensures Collect(ps, w, [t.value] + rhs, k, j) == Some(WithLetter(t, c).(k := k + |prods|, j := j + |[t] + toks|))
    {
      AtParts(w, j, [t], toks);
      AtFirst(w, j, t);
      assert ([t.value] + rhs)[1..] == rhs;
    }
  }

  lemma LetterPiece(t: Token, rhs: Word, prods: seq<Rule>, toks: seq<Token>, c: Collected)
    requires t.value in Terminals() && PieceOf(rhs, prods, toks, c)
    ensures PieceOf([t.value] + rhs, prods, [t] + toks, WithLetter(t, c))
  {
    hide Terminals, Replaces, Collects;
    LetterReplaces(t, rhs, prods, toks);
    LetterCollects(t, rhs, prods, toks, c);
  }

  lemma ChildReplaces(s: Symbol, prods: seq<Rule>, toks: seq<Token>, rhs: Word, prods': seq<Rule>, toks': seq<Token>)
    requires Replaces([s], prods, toks) && Replaces(rhs, prods', toks')
    ensures Replaces([s] + rhs, prods + prods', toks + toks')
  {
    hide Replays, Rules;
    ValuesJoin(toks, toks');
    forall rest, rs, v | Completes(rest, rs, v)
      ensures Replays(RegexCfg(), ([s] + rhs) + rest, (prods + prods') + rs, Values(toks + toks') + v)
    {
      assert Completes(rest, rs, v);
      assert Completes(rhs + rest, prods' + rs, Values(toks') + v);
      assert Replays(RegexCfg(), [s] + (rhs + rest), prods + (prods' + rs), Values(toks) + (Values(toks') + v));
      assert [s] + (rhs + rest) == ([s] + rhs) + rest && prods + (prods' + rs) == (prods + prods') + rs;
      assert Values(toks) + (Values(toks') + v) == Values(toks + toks') + v;
    }
  }

  lemma NotALetter(s: Symbol, w: seq<Token>, j: nat)
    requires s in NonTerminals() && j < |w| && Letterwise(w)
    ensures s != w[j].value
  {
  }

  /** A child in front, where the walk builds it. */
  lemma CollectChild(ps: seq<Rule>, w: seq<Token>, s: Symbol, rhs: Word, k: nat, j: nat, b: Built, c: Collected)
    requires k <= |ps| && j < |w| && s != w[j].value && Build(ps, w, k, j) == Some(b) && b.k <= |ps|
    requires Collect(ps, w, rhs, b.k, b.j) == Some(c)
    ensures Collect(ps, w, [s] + rhs, k, j) == Some(WithChild(b.node, c))
  {
    assert ([s] + rhs)[1..] == rhs;
  }

  lemma ChildCollects(s: Symbol, prods: seq<Rule>, toks: seq<Token>, node: PNode, rhs: Word, prods': seq<Rule>, toks': seq<Token>, c: Collected)
    requires s in NonTerminals() && Builds(prods, toks, node) && Collects(rhs, prods', toks', c)
    ensures Collects([s] + rhs, prods + prods', toks + toks', WithChild(node, c))
  {
    hide Letterwise, NonTerminals, Build, Collect;
    forall ps, w, k: nat, j: nat | At(ps, k, prods + prods') && At(w, j, toks + toks') && j + |toks + toks'| < |w| && Letterwise(w)
      ensures Collect(ps, w, [s] + rhs, k, j) == Some(WithChild(node, c).(k := k + |prods + prods'|, j := j + |toks + toks'|))
    {
      AtParts(ps, k, prods, prods');
      AtParts(w, j, toks, toks');
      NotALetter(s, w, j);
      assert Build(ps, w, k, j) == Some(Built(node, k + |prods|, j + |toks|));
      CollectChild(ps, w, s, rhs, k, j, Built(node, k + |prods|, j + |toks|), c.(k := k + |prods| + |prods'|, j := j + |toks| + |toks'|));
    }
  }

  lemma ChildPiece(s: Symbol, prods: seq<Rule>, toks: seq<Token>, node: PNode, rhs: Word, prods': seq<Rule>, toks': seq<Token>, c: Collected)
    requires s in NonTerminals() && NodePiece(s, prods, toks, node) && PieceOf(rhs, prods', toks', c)
    ensures PieceOf([s] + rhs, prods + prods', toks + toks', WithChild(node, c))
  {
    hide NonTerminals, Replaces, Collects, Builds;
    ChildReplaces(s, prods, toks, rhs, prods', toks');
    ChildCollects(s, prods, toks, node, rhs, prods', toks', c);
  }

  lemma RulePiece(r: Rule, prods: seq<Rule>, toks: seq<Token>, c: Collected)
    requires r in Rules() && r.lhs in NonTerminals() && PieceOf(r.rhs, prods, toks, c)
    ensures NodePiece(r.lhs, [r] + prods, toks, Finish(r.lhs, c).node)
  {
    hide Replays, Rules, NonTerminals, Letterwise, Collect;
    forall rest, rs, v | Completes(rest, rs, v) ensures Replays(RegexCfg(), [r.lhs] + rest, ([r] + prods) + rs, Values(toks) + v) {
      ReplayRuleFirst(r, rest, prods + rs, Values(toks) + v);
      assert [r] + (prods + rs) == ([r] + prods) + rs;
    }
    forall ps, w, k: nat, j: nat | At(ps, k, [r] + prods) && At(w, j, toks) && j + |toks| < |w| && Letterwise(w)
      ensures Build(ps, w, k, j) == Some(Built(Finish(r.lhs, c).node, k + |[r] + prods|, j + |toks|))
    {
      AtParts(ps, k, [r], prods);
      AtFirst(ps, k, r);
      assert Collect(ps, w, r.rhs, k + 1, j) == Some(c.(k := k + 1 + |prods|, j := j + |toks|));
    }
  }

  // ---------- the pieces of an expression ----------

  lemma TheRules()
    ensures Rule(UNION, [CONCAT, UNION2]) in Rules() && Rule(UNION2, [PLUS, CONCAT, UNION2]) in Rules() && Rule(UNION2, []) in Rules()
    ensures Rule(CONCAT, [KSTAR, CONCAT2]) in Rules() && Rule(CONCAT2, [DOT, KSTAR, CONCAT2]) in Rules() && Rule(CONCAT2, []) in Rules()
    ensures Rule(KSTAR, [BRACES, KSTAR2]) in Rules() && Rule(KSTAR2, [STAR]) in Rules() && Rule(KSTAR2, [BANG]) in Rules() && Rule(KSTAR2, []) in Rules()
    ensures Rule(TUPLE, [LT, ID, COMMA, ID, GT]) in Rules() && Rule(TUPLE, [ID]) in Rules() && Rule(TUPLE, [NULLTOKEN]) in Rules()
    ensures Rule(BRACES, [LP, UNION, RP]) in Rules() && Rule(BRACES, [TUPLE]) in Rules()
  {
    var rs := Rules();
    assert rs[0] in rs && rs[1] in rs && rs[2] in rs && rs[3] in rs && rs[4] in rs && rs[5] in rs && rs[6] in rs;
    assert rs[7] in rs && rs[8] in rs && rs[9] in rs && rs[10] in rs && rs[11] in rs && rs[12] in rs && rs[13] in rs && rs[14] in rs;
  }

  /** A node that is kept as a child and is no mark. */
  predicate Kept(n: PNode) {
    n.children != [] && n.token.value != STAR && n.token.value != BANG
  }

  /** A node that is kept as a child and stands for the expression. */
  predicate Means(n: PNode, e: Regex) {
    Kept(n) && ToRegex(n) == Some(e)
  }

  lemma EmptyTail(s: Symbol)
    requires CanVanish(s)
    ensures NodePiece(s, [Rule(s, [])], [], PNode(Plain(s), []))
  {
    hide Rules, PieceOf, NodePiece;
    TheRules();
    EmptyPiece();
    RulePiece(Rule(s, []), [], [], Nothing());
    assert [Rule(s, [])] + [] == [Rule(s, [])];
  }

  lemma MarkTail(m: Symbol)
    requires m == STAR || m == BANG
    ensures NodePiece(KSTAR2, [Rule(KSTAR2, [m])], [Plain(m)], PNode(Plain(m), []))
  {
    hide Rules, PieceOf, NodePiece;
    TheRules();
    EmptyPiece();
    LetterPiece(Plain(m), [], [], [], Nothing());
    assert [m] + [] == [m] && [Plain(m)] + [] == [Plain(m)];
    RulePiece(Rule(KSTAR2, [m]), [], [Plain(m)], WithLetter(Plain(m), Nothing()));
    assert [Rule(KSTAR2, [m])] + [] == [Rule(KSTAR2, [m])];
  }

  /** A right side of two nonterminals. */
  lemma PairPiece(s: Symbol, p: seq<Rule>, t: seq<Token>, n: PNode, s': Symbol, p': seq<Rule>, t': seq<Token>, n': PNode)
    requires s in NonTerminals() && s' in NonTerminals() && NodePiece(s, p, t, n) && NodePiece(s', p', t', n')
    ensures PieceOf([s, s'], p + p', t + t', WithChild(n, WithChild(n', Nothing())))
  {
    hide Rules, NonTerminals, PieceOf, NodePiece, WithChild;
    EmptyPiece();
    ChildPiece(s', p', t', n', [], [], [], Nothing());
    assert [s'] + [] == [s'] && p' + [] == p' && t' + [] == t' && [s] + [s'] == [s, s'];
    ChildPiece(s, p, t, n, [s'], p', t', WithChild(n', Nothing()));
  }

  /** A nonterminal with an empty tail is what stands before the tail. */
  lemma BeforeEmptyTail(lhs: Symbol, s: Symbol, tail: Symbol, p: seq<Rule>, t: seq<Token>, n: PNode) returns (prods: seq<Rule>)
    requires (lhs == UNION && s == CONCAT && tail == UNION2) || (lhs == CONCAT && s == KSTAR && tail == CONCAT2) || (lhs == KSTAR && s == BRACES && tail == KSTAR2)
    requires NodePiece(s, p, t, n) && Kept(n)
    ensures NodePiece(lhs, prods, t, n)
  {
    hide Rules, PieceOf, NodePiece;
    TheRules();
    EmptyTail(tail);
    PairPiece(s, p, t, n, tail, [Rule(tail, [])], [], PNode(Plain(tail), []));
    assert t + [] == t;
    var c := WithChild(n, WithChild(PNode(Plain(tail), []), Nothing()));
    assert c.children == [n] && !c.star;
    RulePiece(Rule(lhs, [s, tail]), p + [Rule(tail, [])], t, c);
    prods := [Rule(lhs, [s, tail])] + (p + [Rule(tail, [])]);
  }

  /** The two binary layers: their nonterminal, its operands and its tail, and the mark between operands. */
  predicate Layer(lhs: Symbol, s: Symbol, tail: Symbol, m: Symbol) {
    (lhs == UNION && s == CONCAT && tail == UNION2 && m == PLUS) || (lhs == CONCAT && s == KSTAR && tail == CONCAT2 && m == DOT)
  }

  /** A mark and the last operand: the tail is replaced by the operand. */
  lemma LastOperand(lhs: Symbol, s: Symbol, tail: Symbol, m: Symbol, p: seq<Rule>, t: seq<Token>, n: PNode) returns (prods: seq<Rule>)
    requires Layer(lhs, s, tail, m) && NodePiece(s, p, t, n) && Kept(n)
    ensures NodePiece(tail, prods, [Plain(m)] + t, n)
  {
    hide Rules, PieceOf, NodePiece;
    TheRules();
    EmptyTail(tail);
    PairPiece(s, p, t, n, tail, [Rule(tail, [])], [], PNode(Plain(tail), []));
    assert t + [] == t && [m] + [s, tail] == [m, s, tail];
    var c := WithChild(n, WithChild(PNode(Plain(tail), []), Nothing()));
    assert c.children == [n] && !c.star && !c.excl;
    LetterPiece(Plain(m), [s, tail], p + [Rule(tail, [])], t, c);
    assert WithLetter(Plain(m), c) == c;
    RulePiece(Rule(tail, [m, s, tail]), p + [Rule(tail, [])], [Plain(m)] + t, c);
    prods := [Rule(tail, [m, s, tail])] + (p + [Rule(tail, [])]);
  }

  /** A mark, an operand and a tail with more operands. */
  lemma MoreOperands(lhs: Symbol, s: Symbol, tail: Symbol, m: Symbol, p: seq<Rule>, t: seq<Token>, n: PNode, p': seq<Rule>, t': seq<Token>, n': PNode)
    returns (prods: seq<Rule>)
    requires Layer(lhs, s, tail, m) && NodePiece(s, p, t, n) && Kept(n) && NodePiece(tail, p', t', n') && Kept(n')
    ensures NodePiece(tail, prods, [Plain(m)] + (t + t'), PNode(Plain(tail), [n, n']))
  {
    hide Rules, PieceOf, NodePiece;
    TheRules();
    PairPiece(s, p, t, n, tail, p', t', n');
    var c := WithChild(n, WithChild(n', Nothing()));
    assert c.children == [n, n'] && !c.star && !c.excl && [m] + [s, tail] == [m, s, tail];
    LetterPiece(Plain(m), [s, tail], p + p', t + t', c);
    assert WithLetter(Plain(m), c) == c;
    RulePiece(Rule(tail, [m, s, tail]), p + p', [Plain(m)] + (t + t'), c);
    prods := [Rule(tail, [m, s, tail])] + (p + p');
  }

  /** A first operand and a tail with more of them. */
  lemma FirstOperand(lhs: Symbol, s: Symbol, tail: Symbol, m: Symbol, p: seq<Rule>, t: seq<Token>, n: PNode, p': seq<Rule>, t': seq<Token>, n': PNode)
    returns (prods: seq<Rule>)
    requires Layer(lhs, s, tail, m) && NodePiece(s, p, t, n) && Kept(n) && NodePiece(tail, p', t', n') && Kept(n')
    ensures NodePiece(lhs, prods, t + t', PNode(Plain(lhs), [n, n']))
  {
    hide Rules, PieceOf, NodePiece;
    TheRules();
    PairPiece(s, p, t, n, tail, p', t', n');
    var c := WithChild(n, WithChild(n', Nothing()));
    assert c.children == [n, n'] && !c.star && !c.excl;
    RulePiece(Rule(lhs, [s, tail]), p + p', t + t', c);
    prods := [Rule(lhs, [s, tail])] + (p + p');
  }

  lemma InBraces(p: seq<Rule>, t: seq<Token>, n: PNode) returns (prods: seq<Rule>)
    requires NodePiece(UNION, p, t, n) && Kept(n)
    ensures NodePiece(BRACES, prods, [Plain(LP)] + (t + [Plain(RP)]), n)
  {
    hide Rules, PieceOf, NodePiece;
    TheRules();
    EmptyPiece();
    LetterPiece(Plain(RP), [], [], [], Nothing());
    assert [RP] + [] == [RP] && [Plain(RP)] + [] == [Plain(RP)] && WithLetter(Plain(RP), Nothing()) == Nothing();
    ChildPiece(UNION, p, t, n, [RP], [], [Plain(RP)], Nothing());
    assert [UNION] + [RP] == [UNION, RP] && p + [] == p && [LP] + [UNION, RP] == [LP, UNION, RP];
    var c := WithChild(n, Nothing());
    assert c.children == [n] && !c.star && WithLetter(Plain(LP), c) == c;
    LetterPiece(Plain(LP), [UNION, RP], p, t + [Plain(RP)], c);
    RulePiece(Rule(BRACES, [LP, UNION, RP]), p, [Plain(LP)] + (t + [Plain(RP)]), c);
    prods := [Rule(BRACES, [LP, UNION, RP])] + p;
  }

  /** A group with a star or an exclamation mark after it. */
  lemma WithMark(m: Symbol, p: seq<Rule>, t: seq<Token>, n: PNode) returns (prods: seq<Rule>)
    requires (m == STAR || m == BANG) && NodePiece(BRACES, p, t, n) && Kept(n)
    ensures NodePiece(KSTAR, prods, t + [Plain(m)], PNode(Token(KSTAR, if m == BANG then BangMark else NoData), [n]))
  {
    hide Rules, PieceOf, NodePiece;
    TheRules();
    MarkTail(m);
    PairPiece(BRACES, p, t, n, KSTAR2, [Rule(KSTAR2, [m])], [Plain(m)], PNode(Plain(m), []));
    var c := WithChild(n, WithChild(PNode(Plain(m), []), Nothing()));
    assert c.children == [n] && c.star && c.excl == (m == BANG);
    RulePiece(Rule(KSTAR, [BRACES, KSTAR2]), p + [Rule(KSTAR2, [m])], t + [Plain(m)], c);
    prods := [Rule(KSTAR, [BRACES, KSTAR2])] + (p + [Rule(KSTAR2, [m])]);
  }

  lemma TuplePiece(a: Word, b: Word) returns (prods: seq<Rule>, n: PNode)
    ensures NodePiece(TUPLE, prods, [Plain(LT), Token(ID, Text(a)), Plain(COMMA), Token(ID, Text(b)), Plain(GT)], n) && Means(n, Tuple(a, b))
  {
    hide Rules, PieceOf, NodePiece;
    TheRules();
    EmptyPiece();
    var ta, tb := Token(ID, Text(a)), Token(ID, Text(b));
    var ts := [Plain(LT), ta, Plain(COMMA), tb, Plain(GT)];
    LetterPiece(Plain(GT), [], [], [], Nothing());
    assert [GT] + [] == [GT] && [Plain(GT)] + [] == [Plain(GT)];
    assert [ID] + [GT] == [ID, GT] && [tb] + [Plain(GT)] == [tb, Plain(GT)];
    LetterPiece(tb, [GT], [], [Plain(GT)], Nothing());
    var c := WithLetter(tb, Nothing());
    assert [COMMA] + [ID, GT] == [COMMA, ID, GT] && [Plain(COMMA)] + [tb, Plain(GT)] == [Plain(COMMA), tb, Plain(GT)];
    LetterPiece(Plain(COMMA), [ID, GT], [], [tb, Plain(GT)], c);
    assert [ID] + [COMMA, ID, GT] == [ID, COMMA, ID, GT] && [ta] + [Plain(COMMA), tb, Plain(GT)] == [ta, Plain(COMMA), tb, Plain(GT)];
    LetterPiece(ta, [COMMA, ID, GT], [], [Plain(COMMA), tb, Plain(GT)], c);
    var d := WithLetter(ta, c);
    assert [LT] + [ID, COMMA, ID, GT] == [LT, ID, COMMA, ID, GT] && [Plain(LT)] + [ta, Plain(COMMA), tb, Plain(GT)] == ts;
    LetterPiece(Plain(LT), [ID, COMMA, ID, GT], [], [ta, Plain(COMMA), tb, Plain(GT)], d);
    assert d.children == [PNode(ta, []), PNode(tb, [])];
    RulePiece(Rule(TUPLE, [LT, ID, COMMA, ID, GT]), [], ts, d);
    prods, n := [Rule(TUPLE, [LT, ID, COMMA, ID, GT])] + [], Finish(TUPLE, d).node;
  }

  /** A tuple of one token: a quoted word, or the keyword. */
  lemma SinglePiece(t: Token, e: Regex) returns (prods: seq<Rule>, n: PNode)
    requires (t.value == ID && t.data.Text? && e == Tuple(t.data.text, [])) || (t == Plain(NULLTOKEN) && e == Tuple([NUL], []))
    ensures NodePiece(TUPLE, prods, [t], n) && Means(n, e)
  {
    hide Rules, PieceOf, NodePiece;
    TheRules();
    EmptyPiece();
    LetterPiece(t, [], [], [], Nothing());
    assert [t.value] + [] == [t.value] && [t] + [] == [t];
    var c := WithLetter(t, Nothing());
    assert c.children == [PNode(t, [])];
    RulePiece(Rule(TUPLE, [t.value]), [], [t], c);
    prods, n := [Rule(TUPLE, [t.value])] + [], Finish(TUPLE, c).node;
  }

  lemma TupleInBraces(p: seq<Rule>, t: seq<Token>, n: PNode) returns (prods: seq<Rule>)
    requires NodePiece(TUPLE, p, t, n) && Kept(n)
    ensures NodePiece(BRACES, prods, t, n)
  {
    hide Rules, PieceOf, NodePiece;
    TheRules();
    EmptyPiece();
    ChildPiece(TUPLE, p, t, n, [], [], [], Nothing());
    assert [TUPLE] + [] == [TUPLE] && p + [] == p && t + [] == t;
    RulePiece(Rule(BRACES, [TUPLE]), p, t, WithChild(n, Nothing()));
    prods := [Rule(BRACES, [TUPLE])] + p;
  }

  // ---------- every expression is read ----------

  /** For tokens that stand for an expression there are productions, and the walk makes a node of them that means it. */
  lemma {:induction false} UnionPiece(ts: seq<Token>, e: Regex) returns (prods: seq<Rule>, n: PNode)
    requires UnionOf(ts, e)
    ensures NodePiece(UNION, prods, ts, n) && Means(n, e)
    decreases |ts|, 3
  {
    hide Rules, NodePiece, UnionOf, TermOf, ToRegex;
    if TermOf(ts, e) {
      prods, n := TermPiece(ts, e);
      prods := BeforeEmptyTail(UNION, CONCAT, UNION2, prods, ts, n);
    } else {
      var a, b := SplitTerms(ts, e);
      var p, n1 := TermPiece(a, e.l);
      var q, n2 := UnionTail(b, e.r);
      prods := FirstOperand(UNION, CONCAT, UNION2, PLUS, p, a, n1, q, [Plain(PLUS)] + b, n2);
      n := PNode(Plain(UNION), [n1, n2]);
      UnionMeans(UNION, n1, n2, e);
    }
  }

  /** The same after a '+'. */
  lemma {:induction false} UnionTail(ts: seq<Token>, e: Regex) returns (prods: seq<Rule>, n: PNode)
    requires UnionOf(ts, e)
    ensures NodePiece(UNION2, prods, [Plain(PLUS)] + ts, n) && Means(n, e)
    decreases |ts|, 3
  {
    hide Rules, NodePiece, UnionOf, TermOf, ToRegex;
    if TermOf(ts, e) {
      prods, n := TermPiece(ts, e);
      prods := LastOperand(UNION, CONCAT, UNION2, PLUS, prods, ts, n);
    } else {
      var a, b := SplitTerms(ts, e);
      var p, n1 := TermPiece(a, e.l);
      var q, n2 := UnionTail(b, e.r);
      prods := MoreOperands(UNION, CONCAT, UNION2, PLUS, p, a, n1, q, [Plain(PLUS)] + b, n2);
      n := PNode(Plain(UNION2), [n1, n2]);
      UnionMeans(UNION2, n1, n2, e);
    }
  }

  lemma UnionMeans(s: Symbol, n1: PNode, n2: PNode, e: Regex)
    requires (s == UNION || s == UNION2) && e.Union? && Means(n1, e.l) && Means(n2, e.r)
    ensures Means(PNode(Plain(s), [n1, n2]), e)
  {
  }

  lemma {:induction false} TermPiece(ts: seq<Token>, e: Regex) returns (prods: seq<Rule>, n: PNode)
    requires TermOf(ts, e)
    ensures NodePiece(CONCAT, prods, ts, n) && Means(n, e)
    decreases |ts|, 2
  {
    hide Rules, NodePiece, TermOf, FactorOf, ToRegex;
    if FactorOf(ts, e) {
      prods, n := FactorPiece(ts, e);
      prods := BeforeEmptyTail(CONCAT, KSTAR, CONCAT2, prods, ts, n);
    } else {
      var a, b := SplitFactors(ts, e);
      var p, n1 := FactorPiece(a, e.l);
      var q, n2 := TermTail(b, e.r);
      prods := FirstOperand(CONCAT, KSTAR, CONCAT2, DOT, p, a, n1, q, [Plain(DOT)] + b, n2);
      n := PNode(Plain(CONCAT), [n1, n2]);
      ConcatMeans(CONCAT, n1, n2, e);
    }
  }

  /** The same after a '.'. */
  lemma {:induction false} TermTail(ts: seq<Token>, e: Regex) returns (prods: seq<Rule>, n: PNode)
    requires TermOf(ts, e)
    ensures NodePiece(CONCAT2, prods, [Plain(DOT)] + ts, n) && Means(n, e)
    decreases |ts|, 2
  {
    hide Rules, NodePiece, TermOf, FactorOf, ToRegex;
    if FactorOf(ts, e) {
      prods, n := FactorPiece(ts, e);
      prods := LastOperand(CONCAT, KSTAR, CONCAT2, DOT, prods, ts, n);
    } else {
      var a, b := SplitFactors(ts, e);
      var p, n1 := FactorPiece(a, e.l);
      var q, n2 := TermTail(b, e.r);
      prods := MoreOperands(CONCAT, KSTAR, CONCAT2, DOT, p, a, n1, q, [Plain(DOT)] + b, n2);
      n := PNode(Plain(CONCAT2), [n1, n2]);
      ConcatMeans(CONCAT2, n1, n2, e);
    }
  }

  lemma ConcatMeans(s: Symbol, n1: PNode, n2: PNode, e: Regex)
    requires (s == CONCAT || s == CONCAT2) && e.Concat? && Means(n1, e.l) && Means(n2, e.r)
    ensures Means(PNode(Plain(s), [n1, n2]), e)
  {
  }

  lemma {:induction false} FactorPiece(ts: seq<Token>, e: Regex) returns (prods: seq<Rule>, n: PNode)
    requires FactorOf(ts, e)
    ensures NodePiece(KSTAR, prods, ts, n) && Means(n, e)
    decreases |ts|, 1
  {
    hide Rules, NodePiece, FactorOf, AtomOf;
    if AtomOf(ts, e) {
      prods, n := AtomPiece(ts, e);
      prods := BeforeEmptyTail(KSTAR, BRACES, KSTAR2, prods, ts, n);
    } else {
      var a := SplitMark(ts, e);
      var m := if e.Star? then STAR else BANG;
      var p, n1 := AtomPiece(a, e.child);
      prods := WithMark(m, p, a, n1);
      n := PNode(Token(KSTAR, if m == BANG then BangMark else NoData), [n1]);
    }
  }

  lemma {:induction false} AtomPiece(ts: seq<Token>, e: Regex) returns (prods: seq<Rule>, n: PNode)
    requires AtomOf(ts, e)
    ensures NodePiece(BRACES, prods, ts, n) && Means(n, e)
    decreases |ts|, 0
  {
    hide Rules, NodePiece, UnionOf, ToRegex;
    if |ts| >= 2 && ts[0] == Plain(LP) && ts[|ts| - 1] == Plain(RP) && UnionOf(ts[1..|ts| - 1], e) {
      var a := SplitGroup(ts, e);
      prods, n := UnionPiece(a, e);
      prods := InBraces(prods, a, n);
    } else if |ts| == 1 {
      prods, n := SinglePiece(ts[0], e);
      assert ts == [ts[0]];
      prods := TupleInBraces(prods, ts, n);
    } else {
      prods, n := TuplePiece(e.left, e.right);
      prods := TupleInBraces(prods, ts, n);
    }
  }
}
