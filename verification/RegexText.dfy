/** Regular expressions as text: printing and tokenizing. Characters are codes of one byte. */
module RegexText {
  import opened Words
  import opened Regexes

  // character codes
  const NUL: nat := 0
  const BANG: nat := 33
  const QUOTE: nat := 39
  const LP: nat := 40
  const RP: nat := 41
  const STAR: nat := 42
  const PLUS: nat := 43
  const COMMA: nat := 44
  const DOT: nat := 46
  const LT: nat := 60
  const GT: nat := 62
  const BACKSLASH: nat := 92
  // named tokens, numbered above the characters
  const EPS: nat := 257
  const EOF: nat := 258
  const ID: nat := 259
  const NULLTOKEN: nat := 268

  const NULLTEXT: Word := [110, 117, 108, 108]

  datatype Data = NoData | Text(text: Word) | BangMark

  datatype Token = Token(value: Symbol, data: Data)

  function Plain(c: Symbol): Token {
    Token(c, NoData)
  }

  predicate IsSpace(c: Symbol) {
    c == 32 || 9 <= c <= 13
  }

  // ---------- quoted words ----------

  /** Reads up to the closing quote, which stays in the rest; a backslash keeps the next character from being special. */
  function Quoted(text: Word, escape: bool): (Word, Word)
    decreases text
  {
    if text == [] || (!escape && text[0] == QUOTE) then ([], text)
    else if !escape && text[0] == BACKSLASH then Quoted(text[1..], true)
    else
      var (name, rest) := Quoted(text[1..], false);
      ([text[0]] + name, rest)
  }

  lemma {:induction false} QuotedRest(text: Word, escape: bool)
    ensures |Quoted(text, escape).1| <= |text| && Quoted(text, escape).1 == text[|text| - |Quoted(text, escape).1|..]
    ensures |Quoted(text, escape).0| <= |text| - |Quoted(text, escape).1|
    decreases text
  {
    if !(text == [] || (!escape && text[0] == QUOTE)) {
      QuotedRest(text[1..], !escape && text[0] == BACKSLASH);
    }
  }

  /** The copy into a C string ends at the first NUL. */
  function UpToNul(w: Word): Word {
    if w == [] || w[0] == NUL then [] else [w[0]] + UpToNul(w[1..])
  }

  predicate Writable(w: Word) {
    QUOTE !in w && BACKSLASH !in w && NUL !in w
  }

  lemma {:induction false} UpToNulKeeps(w: Word)
    ensures |UpToNul(w)| <= |w| && (|UpToNul(w)| == |w| <==> NUL !in w) && (NUL !in w ==> UpToNul(w) == w)
    decreases w
  {
    if w != [] {
      UpToNulKeeps(w[1..]);
      assert w == [w[0]] + w[1..];
    }
  }

  lemma {:induction false} QuotedCopies(w: Word, rest: Word)
    requires QUOTE !in w && BACKSLASH !in w
    ensures Quoted(w + [QUOTE] + rest, false) == (w, [QUOTE] + rest)
    decreases w
  {
    var text := w + [QUOTE] + rest;
    if w == [] {
      assert text == [QUOTE] + rest;
    } else {
      assert text[1..] == w[1..] + [QUOTE] + rest;
      QuotedCopies(w[1..], rest);
      assert [w[0]] + w[1..] == w;
    }
  }

  /** Reading stops early at a quote, and takes fewer characters than it passes where a backslash stands. */
  lemma {:induction false} QuotedLoses(w: Word, rest: Word, escape: bool)
    requires Quoted(w + [QUOTE] + rest, escape).1 == [QUOTE] + rest
    ensures |Quoted(w + [QUOTE] + rest, escape).0| <= |w|
    ensures |Quoted(w + [QUOTE] + rest, escape).0| == |w| && !escape ==> QUOTE !in w && BACKSLASH !in w
    decreases w
  {
    var text := w + [QUOTE] + rest;
    assert |text| == |w| + 1 + |rest|;
    if w == [] {
      assert text == [QUOTE] + rest;
      if escape {
        QuotedRest(text[1..], false);
      }
    } else {
      assert text[1..] == w[1..] + [QUOTE] + rest;
      if !escape && text[0] == QUOTE {
        assert false;
      } else {
        QuotedLoses(w[1..], rest, !escape && text[0] == BACKSLASH);
        assert w == [w[0]] + w[1..];
      }
    }
  }

  /** A word printed between quotes is read back exactly when it has no quote, backslash or NUL. */
  lemma ReadsBackIff(w: Word, rest: Word)
    ensures
      var (name, after) := Quoted(w + [QUOTE] + rest, false);
      (UpToNul(name) == w && after == [QUOTE] + rest) <==> Writable(w)
  {
    var (name, after) := Quoted(w + [QUOTE] + rest, false);
    UpToNulKeeps(name);
    UpToNulKeeps(w);
    if UpToNul(name) == w && after == [QUOTE] + rest {
      QuotedLoses(w, rest, false);
    }
    if Writable(w) {
      QuotedCopies(w, rest);
    }
  }

  // ---------- tokens ----------

  predicate StartsWithNull(text: Word) {
    NULLTEXT <= text
  }

  function Lex(text: Word): seq<Token>
    decreases |text|
  {
    if text == [] then [Token(EOF, NoData)]
    else if IsSpace(text[0]) then Lex(text[1..])
    else if text[0] == QUOTE then
      var (name, rest) := Quoted(text[1..], false);
      QuotedRest(text[1..], false);
      [Token(ID, Text(UpToNul(name)))] + Lex(if rest == [] then [] else rest[1..])
    else if StartsWithNull(text) then [Token(NULLTOKEN, NoData)] + Lex(text[4..])
    else [Token(text[0], NoData)] + Lex(text[1..])
  }

  // ---------- texts that stand for tokens ----------

  /** The white space of the C locale. */
  const BLANKS: set<Symbol> := {9, 10, 11, 12, 13, 32}

  /** Between quotes, a character stands for itself, except a quote or a backslash; after a backslash, any character does. */
  ghost predicate Escapes(body: Word, name: Word)
    decreases |name|
  {
    if name == [] then body == []
    else
      || (body != [] && body[0] == name[0] && name[0] != QUOTE && name[0] != BACKSLASH && Escapes(body[1..], name[1..]))
      || (|body| >= 2 && body[0] == BACKSLASH && body[1] == name[0] && Escapes(body[2..], name[1..]))
  }

  /** At the end of the text the closing quote may be missing; a backslash with nothing after it is then dropped. */
  ghost predicate Quotes(piece: Word, rest: Word, name: Word) {
    && piece != [] && piece[0] == QUOTE
    && (|| (|piece| >= 2 && piece[|piece| - 1] == QUOTE && Escapes(piece[1..|piece| - 1], name))
        || (rest == [] && Escapes(piece[1..], name))
        || (rest == [] && |piece| >= 2 && piece[|piece| - 1] == BACKSLASH && Escapes(piece[1..|piece| - 1], name)))
  }

  /** A token's text is what a C string holds of the name: all before the first NUL. */
  predicate HeldOf(name: Word, text: Word) {
    text <= name && NUL !in text && (|text| < |name| ==> name[|text|] == NUL)
  }

  /** A piece of text, with the rest after it, stands for the token. */
  ghost predicate StandsFor(piece: Word, rest: Word, t: Token) {
    || (t == Token(NULLTOKEN, NoData) && piece == NULLTEXT)
    || (|piece| == 1 && t == Token(piece[0], NoData) && piece[0] != QUOTE && piece[0] !in BLANKS && !(NULLTEXT <= piece + rest))
    || (t.value == ID && t.data.Text? && exists name :: Quotes(piece, rest, name) && HeldOf(name, t.data.text))
  }

  /** The text is made of pieces that stand for the tokens, with white space anywhere between them. */
  ghost predicate Renders(text: Word, ts: seq<Token>)
    decreases |text|
  {
    if text == [] then ts == []
    else
      || (text[0] in BLANKS && Renders(text[1..], ts))
      || (ts != [] && exists n :: 0 < n <= |text| && StandsFor(text[..n], text[n..], ts[0]) && Renders(text[n..], ts[1..]))
  }

  lemma QuotedPlain(c: Symbol, text: Word)
    requires c != QUOTE && c != BACKSLASH
    ensures Quoted([c] + text, false) == ([c] + Quoted(text, false).0, Quoted(text, false).1)
  {
    assert ([c] + text)[1..] == text;
  }

  lemma QuotedEscaped(c: Symbol, text: Word)
    ensures Quoted([BACKSLASH, c] + text, false) == ([c] + Quoted(text, false).0, Quoted(text, false).1)
  {
    assert ([BACKSLASH, c] + text)[1..] == [c] + text && ([c] + text)[1..] == text;
  }

  /** A name starts with one character, written in one of the two ways. */
  lemma EscapesFirst(body: Word, name: Word) returns (first: Word, more: Word)
    requires Escapes(body, name) && name != []
    ensures body == first + more && |first| > 0 && Escapes(more, name[1..])
    ensures first == [BACKSLASH, name[0]] || (first == [name[0]] && name[0] != QUOTE && name[0] != BACKSLASH)
  {
    if body != [] && body[0] == name[0] && name[0] != QUOTE && name[0] != BACKSLASH && Escapes(body[1..], name[1..]) {
      first, more := body[..1], body[1..];
    } else {
      first, more := body[..2], body[2..];
    }
  }

  lemma {:induction false} EscapesQuoted(body: Word, name: Word, rest: Word)
    requires Escapes(body, name)
    ensures Quoted(body + rest, false) == (name + Quoted(rest, false).0, Quoted(rest, false).1)
    decreases |name|
  {
    hide Escapes, Quoted;
    if name == [] {
      EscapesNothing(body);
      assert body + rest == rest && name + Quoted(rest, false).0 == Quoted(rest, false).0;
    } else {
      var first, more := EscapesFirst(body, name);
      EscapesQuoted(more, name[1..], rest);
      assert body + rest == first + (more + rest);
      assert [name[0]] + (name[1..] + Quoted(rest, false).0) == name + Quoted(rest, false).0;
      if first == [BACKSLASH, name[0]] {
        QuotedEscaped(name[0], more + rest);
      } else {
        QuotedPlain(name[0], more + rest);
      }
    }
  }

  lemma EscapesNothing(body: Word)
    ensures Escapes(body, []) <==> body == []
  {
  }

  lemma QuotedEnds(rest: Word)
    ensures Quoted([], false) == ([], []) && Quoted([BACKSLASH], false) == ([], []) && Quoted([QUOTE] + rest, false) == ([], [QUOTE] + rest)
  {
    assert [BACKSLASH][1..] == [];
  }

  /** What a quotation is read as: the part read spells the name, up to a quote or the end. */
  lemma {:induction false} QuotedEscapes(text: Word) returns (body: Word)
    ensures var (name, rest) := Quoted(text, false);
      && Escapes(body, name) && (rest != [] ==> rest[0] == QUOTE)
      && (text == body + rest || (rest == [] && text == body + [BACKSLASH]))
    decreases |text|
  {
    if text == [] || text[0] == QUOTE {
      body := [];
    } else if text[0] == BACKSLASH {
      if |text| == 1 {
        assert text[1..] == [];
        body := [];
        assert text == [] + [BACKSLASH];
      } else {
        var more := QuotedEscapes(text[1..][1..]);
        body := [BACKSLASH, text[1]] + more;
        var (name, rest) := Quoted(text[1..][1..], false);
        assert text == [BACKSLASH, text[1]] + text[1..][1..];
        assert body[2..] == more && ([text[1]] + name)[1..] == name;
      }
    } else {
      var more := QuotedEscapes(text[1..]);
      body := [text[0]] + more;
      var (name, rest) := Quoted(text[1..], false);
      assert text == [text[0]] + text[1..];
      assert body[1..] == more && ([text[0]] + name)[1..] == name;
    }
  }

  lemma {:induction false} HeldIsUpToNul(name: Word, text: Word)
    ensures HeldOf(name, text) <==> text == UpToNul(name)
    decreases name
  {
    if name == [] || name[0] == NUL {
      assert text != [] && text <= name ==> text[0] == name[0] && text[0] in text;
    } else {
      HeldIsUpToNul(name[1..], if text == [] then [] else text[1..]);
      if text != [] && text[0] == name[0] {
        assert text == [text[0]] + text[1..] && name == [name[0]] + name[1..];
      }
      if HeldOf(name, text) {
        assert text != [] && text[0] == name[0];
        assert NUL !in text[1..];
      }
    }
  }

  lemma QuotesRead(piece: Word, rest: Word, name: Word)
    requires Quotes(piece, rest, name)
    ensures var (n, r) := Quoted((piece + rest)[1..], false);
      n == name && (if r == [] then [] else r[1..]) == rest
  {
    hide Escapes, Quoted;
    var text := (piece + rest)[1..];
    QuotedEnds(rest);
    assert name + [] == name;
    if |piece| >= 2 && piece[|piece| - 1] == QUOTE && Escapes(piece[1..|piece| - 1], name) {
      assert text == piece[1..|piece| - 1] + ([QUOTE] + rest);
      EscapesQuoted(piece[1..|piece| - 1], name, [QUOTE] + rest);
      assert ([QUOTE] + rest)[1..] == rest;
    } else if Escapes(piece[1..], name) {
      assert text == piece[1..] + [];
      EscapesQuoted(piece[1..], name, []);
    } else {
      assert text == piece[1..|piece| - 1] + [BACKSLASH];
      EscapesQuoted(piece[1..|piece| - 1], name, [BACKSLASH]);
    }
  }

  /** A text that starts with a quote starts with a piece for the name that is read. */
  lemma QuotesFound(text: Word) returns (n: nat)
    requires text != [] && text[0] == QUOTE
    ensures 0 < n <= |text|
    ensures var (name, r) := Quoted(text[1..], false);
      Quotes(text[..n], text[n..], name) && text[n..] == if r == [] then [] else r[1..]
  {
    hide Escapes, Quoted;
    var (name, r) := Quoted(text[1..], false);
    var body := QuotedEscapes(text[1..]);
    assert text == [QUOTE] + text[1..];
    if r != [] {
      n := |body| + 2;
      assert text[..n] == [QUOTE] + body + [QUOTE] && text[n..] == r[1..] && text[..n][1..n - 1] == body;
    } else {
      n := |text|;
      assert text[..n] == text && text[n..] == [];
      if text[1..] == body + r {
        assert text[..n][1..] == body;
      } else {
        assert text[..n][1..n - 1] == body;
      }
    }
  }

  lemma QuotationIsLexed(piece: Word, rest: Word, name: Word, t: Word)
    requires Quotes(piece, rest, name) && HeldOf(name, t)
    ensures Lex(piece + rest) == [Token(ID, Text(t))] + Lex(rest)
  {
    StartsWithQuote(piece, rest, name);
    hide Quotes, Quoted, HeldOf;
    QuotesRead(piece, rest, name);
    HeldIsUpToNul(name, t);
    assert (piece + rest)[0] == QUOTE;
  }

  lemma NullIsLexed(rest: Word)
    ensures Lex(NULLTEXT + rest) == [Token(NULLTOKEN, NoData)] + Lex(rest)
  {
    var text := NULLTEXT + rest;
    assert text[4..] == rest && text[0] == 110;
  }

  lemma CharacterIsLexed(c: Symbol, rest: Word)
    requires c != QUOTE && c !in BLANKS && !(NULLTEXT <= [c] + rest)
    ensures Lex([c] + rest) == [Token(c, NoData)] + Lex(rest)
  {
    assert ([c] + rest)[1..] == rest;
  }

  lemma PieceIsLexed(text: Word, n: nat, t: Token)
    requires 0 < n <= |text| && StandsFor(text[..n], text[n..], t)
    ensures Lex(text) == [t] + Lex(text[n..])
  {
    hide Quotes, HeldOf, Lex;
    var piece, rest := text[..n], text[n..];
    assert text == piece + rest;
    if t == Token(NULLTOKEN, NoData) && piece == NULLTEXT {
      NullIsLexed(rest);
    } else if t.value == ID && t.data.Text? && exists name :: Quotes(piece, rest, name) && HeldOf(name, t.data.text) {
      var name :| Quotes(piece, rest, name) && HeldOf(name, t.data.text);
      QuotationIsLexed(piece, rest, name, t.data.text);
    } else {
      assert piece == [piece[0]];
      CharacterIsLexed(piece[0], rest);
    }
  }

  lemma StartsWithQuote(piece: Word, rest: Word, name: Word)
    requires Quotes(piece, rest, name)
    ensures piece != [] && piece[0] == QUOTE
  {
  }

  /** After white space, the first token of a text is what some piece at its start stands for. */
  lemma FirstPiece(text: Word) returns (n: nat)
    requires text != [] && !IsSpace(text[0])
    ensures 0 < n <= |text| && Lex(text) != [] && StandsFor(text[..n], text[n..], Lex(text)[0]) && Lex(text)[1..] == Lex(text[n..])
  {
    hide Quotes, Quoted, HeldOf;
    if text[0] == QUOTE {
      n := QuotesFound(text);
      var (name, r) := Quoted(text[1..], false);
      HeldIsUpToNul(name, UpToNul(name));
      assert Quotes(text[..n], text[n..], name) && HeldOf(name, UpToNul(name));
    } else if NULLTEXT <= text {
      n := 4;
      assert text[..4] == NULLTEXT;
    } else {
      n := 1;
      assert text[..1] + text[1..] == text;
    }
  }

  /** Tokenizing a text gives the tokens that it renders, and the end marker: every text renders one list of tokens. */
  lemma {:induction false} RendersIsLex(text: Word, ts: seq<Token>)
    ensures Renders(text, ts) <==> Lex(text) == ts + [Token(EOF, NoData)]
    decreases |text|
  {
    hide StandsFor, Lex;
    if text == [] {
      LexNothing();
    } else if IsSpace(text[0]) {
      LexSteps(text, 0);
      assert text[0..] == text;
      RendersIsLex(text[1..], ts);
      forall n | ts != [] && 0 < n <= |text| ensures !StandsFor(text[..n], text[n..], ts[0]) {
        BlankStandsForNothing(text, n, ts[0]);
      }
    } else {
      if Renders(text, ts) {
        var n :| ts != [] && 0 < n <= |text| && StandsFor(text[..n], text[n..], ts[0]) && Renders(text[n..], ts[1..]);
        PieceIsLexed(text, n, ts[0]);
        RendersIsLex(text[n..], ts[1..]);
        assert [ts[0]] + (ts[1..] + [Token(EOF, NoData)]) == ts + [Token(EOF, NoData)];
      }
      if Lex(text) == ts + [Token(EOF, NoData)] {
        var n := FirstPiece(text);
        LexNonEmpty(text[n..]);
        assert ts != [] && Lex(text)[0] == ts[0] && Lex(text)[1..] == ts[1..] + [Token(EOF, NoData)];
        RendersIsLex(text[n..], ts[1..]);
      }
    }
  }

  lemma LexNothing()
    ensures Lex([]) == [Token(EOF, NoData)]
  {
  }

  lemma {:induction false} LexNonEmpty(text: Word)
    ensures Lex(text) != [] && Lex(text)[|Lex(text)| - 1] == Token(EOF, NoData)
    decreases |text|
  {
    hide Quoted, UpToNul;
    if text == [] {
    } else if IsSpace(text[0]) {
      LexNonEmpty(text[1..]);
    } else if text[0] == QUOTE {
      var (name, rest) := Quoted(text[1..], false);
      QuotedRest(text[1..], false);
      LexNonEmpty(if rest == [] then [] else rest[1..]);
    } else if StartsWithNull(text) {
      LexNonEmpty(text[4..]);
    } else {
      LexNonEmpty(text[1..]);
    }
  }

  lemma BlankStandsForNothing(text: Word, n: nat, t: Token)
    requires text != [] && IsSpace(text[0]) && 0 < n <= |text|
    ensures !StandsFor(text[..n], text[n..], t)
  {
    hide Escapes;
    assert text[..n][0] == text[0];
  }

  /** The name that starts at `start`, and the position of its closing quote or of the end. */
  method ReadQuoted(text: Word, start: nat) returns (name: Word, i: nat)
    requires start <= |text|
    ensures start <= i <= |text| && Quoted(text[start..], false) == (name, text[i..])
  {
    var escape := false;
    name, i := [], start;
    assert name + Quoted(text[i..], escape).0 == Quoted(text[i..], escape).0;
    while i < |text| && (escape || text[i] != QUOTE)
      invariant start <= i <= |text|
      invariant Quoted(text[start..], false) == (name + Quoted(text[i..], escape).0, Quoted(text[i..], escape).1)
    {
      assert text[i..][0] == text[i] && text[i..][1..] == text[i + 1..];
      if text[i] == BACKSLASH && !escape {
        escape := true;
      } else {
        var (more, rest) := Quoted(text[i + 1..], false);
        assert name + ([text[i]] + more) == (name + [text[i]]) + more;
        name := name + [text[i]];
        escape := false;
      }
      i := i + 1;
    }
    assert name + [] == name;
  }

  /** What is left to tokenize at position i; one past the end, the loop is over. */
  function LexFrom(text: Word, i: nat): seq<Token>
    requires i <= |text| + 1
  {
    if i <= |text| then Lex(text[i..]) else Lex([])
  }

  lemma LexSteps(text: Word, i: nat)
    requires i < |text|
    ensures IsSpace(text[i]) ==> LexFrom(text, i) == LexFrom(text, i + 1)
    ensures !IsSpace(text[i]) && text[i] != QUOTE && StartsWithNull(text[i..]) ==> i + 4 <= |text| && LexFrom(text, i) == [Plain(NULLTOKEN)] + LexFrom(text, i + 4)
    ensures !IsSpace(text[i]) && text[i] != QUOTE && !StartsWithNull(text[i..]) ==> LexFrom(text, i) == [Plain(text[i])] + LexFrom(text, i + 1)
  {
    assert text[i..][0] == text[i] && text[i..][1..] == text[i + 1..];
    if StartsWithNull(text[i..]) {
      assert text[i..][4..] == text[i + 4..];
    }
  }

  lemma Push(res: seq<Token>, t: Token, rest: seq<Token>)
    ensures res + ([t] + rest) == (res + [t]) + rest
  {
  }

  /** The result is the one token list that the text renders, and the end marker. */
  method Tokenize(text: Word) returns (res: seq<Token>)
    ensures res == Lex(text)
    ensures res != [] && res[|res| - 1] == Plain(EOF) && Renders(text, res[..|res| - 1])
    ensures forall ts :: Renders(text, ts) ==> res == ts + [Plain(EOF)]
  {
    hide Lex, Quoted, IsSpace, StartsWithNull, LexFrom, Renders;
    res := [];
    var i: nat := 0;
    LexStart(text);
    while i < |text|
      invariant i <= |text| + 1 && Lex(text) == res + LexFrom(text, i)
    {
      var c := text[i];
      LexSteps(text, i);
      if IsSpace(c) {
        i := i + 1;
        continue;
      }
      if c == QUOTE {
        var start := i;
        var name;
        name, i := ReadQuoted(text, i + 1);
        var t := Token(ID, Text(UpToNul(name)));
        LexQuote(text, start, i, name);
        Push(res, t, LexFrom(text, i + 1));
        res := res + [t];
      } else if StartsWithNull(text[i..]) {
        Push(res, Plain(NULLTOKEN), LexFrom(text, i + 4));
        res := res + [Plain(NULLTOKEN)];
        i := i + 3;
      } else {
        Push(res, Plain(c), LexFrom(text, i + 1));
        res := res + [Plain(c)];
      }
      i := i + 1;
    }
    LexEnd(text, i);
    res := res + [Plain(EOF)];
    forall ts ensures Renders(text, ts) <==> res == ts + [Plain(EOF)] {
      RendersIsLex(text, ts);
    }
    LexNonEmpty(text);
  }

  lemma LexStart(text: Word)
    ensures Lex(text) == [] + LexFrom(text, 0)
  {
    assert text[0..] == text;
  }

  lemma LexEnd(text: Word, i: nat)
    requires |text| <= i <= |text| + 1
    ensures LexFrom(text, i) == [Plain(EOF)]
  {
    if i == |text| {
      assert text[i..] == [];
    }
  }

  lemma LexQuote(text: Word, start: nat, end: nat, name: Word)
    requires start < |text| && text[start] == QUOTE && start < end <= |text| && Quoted(text[start + 1..], false) == (name, text[end..])
    ensures LexFrom(text, start) == [Token(ID, Text(UpToNul(name)))] + LexFrom(text, end + 1)
  {
    assert text[start..][0] == QUOTE && text[start..][1..] == text[start + 1..];
    if end < |text| {
      assert text[end..][1..] == text[end + 1..];
    } else {
      assert text[end..] == [];
    }
  }

  // ---------- printing ----------

  function Print(r: Regex): Word {
    match r
    case Tuple(a, b) => [LT, QUOTE] + a + [QUOTE, COMMA, QUOTE] + b + [QUOTE, GT]
    case Union(x, y) => [LP] + Print(x) + [PLUS] + Print(y) + [RP]
    case Concat(x, y) => [LP] + Print(x) + [DOT] + Print(y) + [RP]
    case Star(c) => [LP] + Print(c) + [RP, STAR]
    case Plus(c) => [LP] + Print(c) + [RP, BANG]
  }

  /** The tokens of a printed expression, without the end marker. */
  function PrintTokens(r: Regex): seq<Token> {
    match r
    case Tuple(a, b) => [Plain(LT), Token(ID, Text(a)), Plain(COMMA), Token(ID, Text(b)), Plain(GT)]
    case Union(x, y) => [Plain(LP)] + PrintTokens(x) + [Plain(PLUS)] + PrintTokens(y) + [Plain(RP)]
    case Concat(x, y) => [Plain(LP)] + PrintTokens(x) + [Plain(DOT)] + PrintTokens(y) + [Plain(RP)]
    case Star(c) => [Plain(LP)] + PrintTokens(c) + [Plain(RP), Plain(STAR)]
    case Plus(c) => [Plain(LP)] + PrintTokens(c) + [Plain(RP), Plain(BANG)]
  }

  predicate AllWritable(r: Regex) {
    match r
    case Tuple(a, b) => Writable(a) && Writable(b)
    case Union(x, y) => AllWritable(x) && AllWritable(y)
    case Concat(x, y) => AllWritable(x) && AllWritable(y)
    case Star(c) => AllWritable(c)
    case Plus(c) => AllWritable(c)
  }

  predicate Ordinary(c: Symbol) {
    !IsSpace(c) && c != QUOTE && c != 110
  }

  lemma LexOrdinary(c: Symbol, rest: Word)
    requires Ordinary(c)
    ensures Lex([c] + rest) == [Plain(c)] + Lex(rest)
  {
    assert ([c] + rest)[1..] == rest;
  }

  lemma LexWord(w: Word, rest: Word)
    requires Writable(w)
    ensures Lex([QUOTE] + w + [QUOTE] + rest) == [Token(ID, Text(w))] + Lex(rest)
  {
    var text := [QUOTE] + w + [QUOTE] + rest;
    assert text[1..] == w + [QUOTE] + rest;
    QuotedCopies(w, rest);
    UpToNulKeeps(w);
    assert ([QUOTE] + rest)[1..] == rest;
  }

  lemma LexTuple(a: Word, b: Word, rest: Word)
    requires Writable(a) && Writable(b)
    ensures Lex(Print(Tuple(a, b)) + rest) == PrintTokens(Tuple(a, b)) + Lex(rest)
  {
    hide Lex, Ordinary, Writable;
    var r3 := [GT] + rest;
    var r2 := [QUOTE] + b + [QUOTE] + r3;
    var r1 := [COMMA] + r2;
    var r0 := [QUOTE] + a + [QUOTE] + r1;
    TupleText(a, b, rest);
    OrdinaryMarks();
    LexOrdinary(LT, r0);
    LexWord(a, r1);
    LexOrdinary(COMMA, r2);
    LexWord(b, r3);
    LexOrdinary(GT, rest);
    var t := Lex(rest);
    assert [Plain(LT)] + ([Token(ID, Text(a))] + ([Plain(COMMA)] + ([Token(ID, Text(b))] + ([Plain(GT)] + t)))) == PrintTokens(Tuple(a, b)) + t;
  }

  lemma TupleText(a: Word, b: Word, rest: Word)
    ensures Print(Tuple(a, b)) + rest == [LT] + ([QUOTE] + a + [QUOTE] + ([COMMA] + ([QUOTE] + b + [QUOTE] + ([GT] + rest))))
  {
  }

  lemma OrdinaryMarks()
    ensures Ordinary(LT) && Ordinary(GT) && Ordinary(COMMA) && Ordinary(LP) && Ordinary(RP)
    ensures Ordinary(PLUS) && Ordinary(DOT) && Ordinary(STAR) && Ordinary(BANG)
  {
  }

  lemma BinaryText(x: Word, mark: Symbol, y: Word, rest: Word)
    ensures ([LP] + x + [mark] + y + [RP]) + rest == [LP] + (x + ([mark] + (y + ([RP] + rest))))
  {
  }

  lemma BinaryTokens(x: seq<Token>, mark: Token, y: seq<Token>, rest: seq<Token>)
    ensures [Plain(LP)] + (x + ([mark] + (y + ([Plain(RP)] + rest)))) == ([Plain(LP)] + x + [mark] + y + [Plain(RP)]) + rest
  {
  }

  lemma UnaryText(x: Word, mark: Symbol, rest: Word)
    ensures ([LP] + x + [RP, mark]) + rest == [LP] + (x + ([RP] + ([mark] + rest)))
  {
  }

  lemma UnaryTokens(x: seq<Token>, mark: Token, rest: seq<Token>)
    ensures [Plain(LP)] + (x + ([Plain(RP)] + ([mark] + rest))) == ([Plain(LP)] + x + [Plain(RP), mark]) + rest
  {
  }

  /** Tokenizing a printed expression gives its tokens, whatever comes after it. */
  lemma {:induction false} LexPrint(r: Regex, rest: Word)
    requires AllWritable(r)
    ensures Lex(Print(r) + rest) == PrintTokens(r) + Lex(rest)
    decreases r
  {
    hide Lex, Ordinary, Writable;
    OrdinaryMarks();
    match r
    case Tuple(a, b) => LexTuple(a, b, rest);
    case Union(x, y) =>
      BinaryText(Print(x), PLUS, Print(y), rest);
      LexOrdinary(LP, Print(x) + ([PLUS] + (Print(y) + ([RP] + rest))));
      LexPrint(x, [PLUS] + (Print(y) + ([RP] + rest)));
      LexOrdinary(PLUS, Print(y) + ([RP] + rest));
      LexPrint(y, [RP] + rest);
      LexOrdinary(RP, rest);
      BinaryTokens(PrintTokens(x), Plain(PLUS), PrintTokens(y), Lex(rest));
    case Concat(x, y) =>
      BinaryText(Print(x), DOT, Print(y), rest);
      LexOrdinary(LP, Print(x) + ([DOT] + (Print(y) + ([RP] + rest))));
      LexPrint(x, [DOT] + (Print(y) + ([RP] + rest)));
      LexOrdinary(DOT, Print(y) + ([RP] + rest));
      LexPrint(y, [RP] + rest);
      LexOrdinary(RP, rest);
      BinaryTokens(PrintTokens(x), Plain(DOT), PrintTokens(y), Lex(rest));
    case Star(c) =>
      UnaryText(Print(c), STAR, rest);
      LexOrdinary(LP, Print(c) + ([RP] + ([STAR] + rest)));
      LexPrint(c, [RP] + ([STAR] + rest));
      LexOrdinary(RP, [STAR] + rest);
      LexOrdinary(STAR, rest);
      UnaryTokens(PrintTokens(c), Plain(STAR), Lex(rest));
    case Plus(c) =>
      UnaryText(Print(c), BANG, rest);
      LexOrdinary(LP, Print(c) + ([RP] + ([BANG] + rest)));
      LexPrint(c, [RP] + ([BANG] + rest));
      LexOrdinary(RP, [BANG] + rest);
      LexOrdinary(BANG, rest);
      UnaryTokens(PrintTokens(c), Plain(BANG), Lex(rest));
  }

  lemma LexPrinted(r: Regex)
    requires AllWritable(r)
    ensures Lex(Print(r)) == PrintTokens(r) + [Plain(EOF)]
  {
    LexPrint(r, []);
    assert Print(r) + [] == Print(r);
  }
}
