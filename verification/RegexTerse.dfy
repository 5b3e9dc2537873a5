/** Printing with as few parentheses as the layers of the syntax need, and reading it back. */
module RegexTerse {
  import opened Words
  import opened Regexes
  import opened RegexText
  import opened RegexSyntax
  import opened RegexReading

  // ---------- tokens ----------

  /** The innermost layer that needs no parentheses: unions, terms, factors, atoms. */
  function Level(e: Regex): (level: nat)
    ensures level <= 3
  {
    match e
    case Union(_, _) => 0
    case Concat(_, _) => 1
    case Star(_) => 2
    case Plus(_) => 2
    case Tuple(_, _) => 3
  }

  function Terse(e: Regex, level: nat): seq<Token>
    decreases e, 1
  {
    if level <= Level(e) then Body(e) else [Plain(LP)] + (Body(e) + [Plain(RP)])
  }

  function Body(e: Regex): seq<Token>
    decreases e, 0
  {
    match e
    case Union(x, y) => Terse(x, 1) + ([Plain(PLUS)] + Terse(y, 0))
    case Concat(x, y) => Terse(x, 2) + ([Plain(DOT)] + Terse(y, 1))
    case Star(c) => Terse(c, 3) + [Plain(STAR)]
    case Plus(c) => Terse(c, 3) + [Plain(BANG)]
    case Tuple(a, b) =>
      if a == [NUL] && b == [] then [Plain(NULLTOKEN)]
      else if b == [] then [Token(ID, Text(a))]
      else [Plain(LT), Token(ID, Text(a)), Plain(COMMA), Token(ID, Text(b)), Plain(GT)]
  }

  ghost predicate OnLayer(level: nat, ts: seq<Token>, e: Regex) {
    if level == 0 then UnionOf(ts, e) else if level == 1 then TermOf(ts, e) else if level == 2 then FactorOf(ts, e) else AtomOf(ts, e)
  }

  lemma OuterLayers(level: nat, ts: seq<Token>, e: Regex)
    requires OnLayer(level, ts, e)
    ensures forall outer: nat :: outer <= level ==> OnLayer(outer, ts, e)
  {
    hide UnionOf, TermOf, FactorOf, AtomOf;
    OneTerm(ts, e);
  }

  /** On every layer, what is printed means the expression. */
  lemma {:induction false} TerseMeans(e: Regex, level: nat)
    requires level <= 3
    ensures OnLayer(level, Terse(e, level), e)
    decreases e, 1
  {
    hide UnionOf, TermOf, FactorOf, AtomOf, Body;
    BodyMeans(e);
    OuterLayers(Level(e), Body(e), e);
    if Level(e) < level {
      assert OnLayer(0, Body(e), e);
      Grouped(Body(e), e);
      OuterLayers(3, Terse(e, level), e);
    }
  }

  lemma {:induction false} BodyMeans(e: Regex)
    ensures OnLayer(Level(e), Body(e), e)
    decreases e, 0
  {
    hide UnionOf, TermOf, FactorOf;
    match e
    case Union(x, y) =>
      TerseMeans(x, 1);
      TerseMeans(y, 0);
      MoreTerms(Terse(x, 1), x, Terse(y, 0), y);
    case Concat(x, y) =>
      TerseMeans(x, 2);
      TerseMeans(y, 1);
      MoreFactors(Terse(x, 2), x, Terse(y, 1), y);
    case Star(c) =>
      TerseMeans(c, 3);
      Marked(Terse(c, 3), c);
    case Plus(c) =>
      TerseMeans(c, 3);
      Marked(Terse(c, 3), c);
    case Tuple(a, b) =>
  }

  // ---------- text ----------

  function Escaped(w: Word): Word {
    if w == [] then []
    else if w[0] == QUOTE || w[0] == BACKSLASH then [BACKSLASH, w[0]] + Escaped(w[1..])
    else [w[0]] + Escaped(w[1..])
  }

  lemma {:induction false} EscapedSpells(w: Word)
    ensures Escapes(Escaped(w), w)
    decreases w
  {
    if w != [] {
      EscapedSpells(w[1..]);
      assert ([w[0]] + Escaped(w[1..]))[1..] == Escaped(w[1..]) && ([BACKSLASH, w[0]] + Escaped(w[1..]))[2..] == Escaped(w[1..]);
    }
  }

  function Written(t: Token): Word {
    if t.data.Text? then [QUOTE] + Escaped(t.data.text) + [QUOTE]
    else if t == Plain(NULLTOKEN) then NULLTEXT
    else [t.value]
  }

  function Spelled(ts: seq<Token>): Word {
    if ts == [] then [] else Written(ts[0]) + Spelled(ts[1..])
  }

  /** Only words with a NUL have no writing of their own. */
  predicate Speakable(t: Token) {
    || (t.value == ID && t.data.Text? && NUL !in t.data.text)
    || t == Plain(NULLTOKEN)
    || (t == Plain(t.value) && Ordinary(t.value))
  }

  lemma WrittenStands(t: Token, rest: Word)
    requires Speakable(t)
    ensures Written(t) != [] && StandsFor(Written(t), rest, t)
  {
    if t.data.Text? {
      var w := t.data.text;
      EscapedSpells(w);
      hide Escapes;
      var piece := Written(t);
      assert piece[1..|piece| - 1] == Escaped(w);
      assert Quotes(piece, rest, w) && HeldOf(w, w);
    } else if t != Plain(NULLTOKEN) {
      assert ([t.value] + rest)[0] != NULLTEXT[0];
    }
  }

  lemma {:induction false} SpelledRenders(ts: seq<Token>)
    requires forall t :: t in ts ==> Speakable(t)
    ensures Renders(Spelled(ts), ts)
    decreases |ts|
  {
    hide StandsFor, Written, Speakable;
    if ts != [] {
      var piece, rest := Written(ts[0]), Spelled(ts[1..]);
      SpelledRenders(ts[1..]);
      WrittenStands(ts[0], rest);
      var text, n := piece + rest, |piece|;
      assert Spelled(ts) == text && text[..n] == piece && text[n..] == rest && 0 < n <= |text|;
      assert StandsFor(text[..n], text[n..], ts[0]) && Renders(text[n..], ts[1..]);
    }
  }

  // ---------- the round trip ----------

  /** No word has a NUL, except in the pair that the keyword stands for. */
  predicate AllSpeakable(e: Regex) {
    match e
    case Tuple(a, b) => (a == [NUL] && b == []) || (NUL !in a && NUL !in b)
    case Union(x, y) => AllSpeakable(x) && AllSpeakable(y)
    case Concat(x, y) => AllSpeakable(x) && AllSpeakable(y)
    case Star(c) => AllSpeakable(c)
    case Plus(c) => AllSpeakable(c)
  }

  lemma {:induction false} TerseSpeakable(e: Regex, level: nat)
    requires AllSpeakable(e)
    ensures forall t :: t in Terse(e, level) ==> Speakable(t)
    decreases e
  {
    OrdinaryMarks();
    match e
    case Tuple(_, _) =>
    case Union(x, y) => TerseSpeakable(x, 1); TerseSpeakable(y, 0);
    case Concat(x, y) => TerseSpeakable(x, 2); TerseSpeakable(y, 1);
    case Star(c) => TerseSpeakable(c, 3);
    case Plus(c) => TerseSpeakable(c, 3);
  }

  /** A text with the fewest parentheses; quotes and backslashes in words are escaped. */
  function TerseText(e: Regex): Word {
    Spelled(Terse(e, 0))
  }

  /** It means the expression that was printed, so parsing it gives that expression, grouped to the left. */
  lemma TerseIsRead(e: Regex)
    requires AllSpeakable(e)
    ensures ReadsAs(TerseText(e), e)
  {
    hide UnionOf, Renders, Terse, Speakable;
    TerseMeans(e, 0);
    TerseSpeakable(e, 0);
    SpelledRenders(Terse(e, 0));
  }
}
