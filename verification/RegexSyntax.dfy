/** What token lists mean as regular expressions: the layers of the syntax, without parsing. */
module RegexSyntax {
  import opened Words
  import opened Regexes
  import opened RegexText

  /** Terms joined by '+': their union, grouped to the right. */
  ghost predicate UnionOf(ts: seq<Token>, e: Regex)
    decreases |ts|, 3
  {
    TermOf(ts, e) || (e.Union? && exists i :: 0 <= i < |ts| && ts[i] == Plain(PLUS) && TermOf(ts[..i], e.l) && UnionOf(ts[i + 1..], e.r))
  }

  /** Factors joined by '.': their concatenation, grouped to the right. */
  ghost predicate TermOf(ts: seq<Token>, e: Regex)
    decreases |ts|, 2
  {
    FactorOf(ts, e) || (e.Concat? && exists i :: 0 <= i < |ts| && ts[i] == Plain(DOT) && FactorOf(ts[..i], e.l) && TermOf(ts[i + 1..], e.r))
  }

  /** An atom, with a '*' or a '!' after it or without. */
  ghost predicate FactorOf(ts: seq<Token>, e: Regex)
    decreases |ts|, 1
  {
    || AtomOf(ts, e)
    || (e.Star? && ts != [] && ts[|ts| - 1] == Plain(STAR) && AtomOf(ts[..|ts| - 1], e.child))
    || (e.Plus? && ts != [] && ts[|ts| - 1] == Plain(BANG) && AtomOf(ts[..|ts| - 1], e.child))
  }

  /** A pair of quoted words, one word beside the empty one, the keyword for the NUL word, or a group. */
  ghost predicate AtomOf(ts: seq<Token>, e: Regex)
    decreases |ts|, 0
  {
    || (exists a, b :: ts == [Plain(LT), Token(ID, Text(a)), Plain(COMMA), Token(ID, Text(b)), Plain(GT)] && e == Tuple(a, b))
    || (exists a :: ts == [Token(ID, Text(a))] && e == Tuple(a, []))
    || (ts == [Plain(NULLTOKEN)] && e == Tuple([NUL], []))
    || (|ts| >= 2 && ts[0] == Plain(LP) && ts[|ts| - 1] == Plain(RP) && UnionOf(ts[1..|ts| - 1], e))
  }

  // ---------- putting expressions together ----------

  lemma OneTerm(ts: seq<Token>, e: Regex)
    ensures TermOf(ts, e) ==> UnionOf(ts, e)
    ensures FactorOf(ts, e) ==> TermOf(ts, e)
    ensures AtomOf(ts, e) ==> FactorOf(ts, e)
  {
  }

  lemma MoreTerms(a: seq<Token>, x: Regex, b: seq<Token>, y: Regex)
    requires TermOf(a, x) && UnionOf(b, y)
    ensures UnionOf(a + ([Plain(PLUS)] + b), Union(x, y))
  {
    hide TermOf;
    var ts := a + ([Plain(PLUS)] + b);
    assert ts[|a|] == Plain(PLUS) && ts[..|a|] == a && ts[|a| + 1..] == b;
  }

  lemma MoreFactors(a: seq<Token>, x: Regex, b: seq<Token>, y: Regex)
    requires FactorOf(a, x) && TermOf(b, y)
    ensures TermOf(a + ([Plain(DOT)] + b), Concat(x, y))
  {
    hide FactorOf;
    var ts := a + ([Plain(DOT)] + b);
    assert ts[|a|] == Plain(DOT) && ts[..|a|] == a && ts[|a| + 1..] == b;
  }

  lemma Marked(a: seq<Token>, x: Regex)
    requires AtomOf(a, x)
    ensures FactorOf(a + [Plain(STAR)], Star(x)) && FactorOf(a + [Plain(BANG)], Plus(x))
  {
    hide AtomOf;
    assert (a + [Plain(STAR)])[..|a|] == a && (a + [Plain(BANG)])[..|a|] == a;
  }

  lemma Grouped(a: seq<Token>, x: Regex)
    requires UnionOf(a, x)
    ensures AtomOf([Plain(LP)] + (a + [Plain(RP)]), x)
  {
    hide UnionOf;
    var ts := [Plain(LP)] + (a + [Plain(RP)]);
    assert ts[1..|ts| - 1] == a;
  }

  // ---------- taking token lists apart ----------

  lemma SplitTerms(ts: seq<Token>, e: Regex) returns (a: seq<Token>, b: seq<Token>)
    requires UnionOf(ts, e) && !TermOf(ts, e)
    ensures e.Union? && ts == a + ([Plain(PLUS)] + b) && TermOf(a, e.l) && UnionOf(b, e.r)
  {
    hide TermOf;
    var i :| 0 <= i < |ts| && ts[i] == Plain(PLUS) && TermOf(ts[..i], e.l) && UnionOf(ts[i + 1..], e.r);
    a, b := ts[..i], ts[i + 1..];
  }

  lemma SplitFactors(ts: seq<Token>, e: Regex) returns (a: seq<Token>, b: seq<Token>)
    requires TermOf(ts, e) && !FactorOf(ts, e)
    ensures e.Concat? && ts == a + ([Plain(DOT)] + b) && FactorOf(a, e.l) && TermOf(b, e.r)
  {
    hide FactorOf;
    var i :| 0 <= i < |ts| && ts[i] == Plain(DOT) && FactorOf(ts[..i], e.l) && TermOf(ts[i + 1..], e.r);
    a, b := ts[..i], ts[i + 1..];
  }

  lemma SplitMark(ts: seq<Token>, e: Regex) returns (a: seq<Token>)
    requires FactorOf(ts, e) && !AtomOf(ts, e)
    ensures (e.Star? && ts == a + [Plain(STAR)] && AtomOf(a, e.child)) || (e.Plus? && ts == a + [Plain(BANG)] && AtomOf(a, e.child))
  {
    hide AtomOf;
    a := ts[..|ts| - 1];
  }

  lemma SplitGroup(ts: seq<Token>, e: Regex) returns (a: seq<Token>)
    requires |ts| >= 2 && ts[0] == Plain(LP) && ts[|ts| - 1] == Plain(RP) && UnionOf(ts[1..|ts| - 1], e)
    ensures ts == [Plain(LP)] + (a + [Plain(RP)]) && UnionOf(a, e)
  {
    hide UnionOf;
    a := ts[1..|ts| - 1];
  }
}
