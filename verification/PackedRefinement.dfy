/** The packed transducer refines the plain one: after the same calls, both describe the same transducer. */
module PackedRefinement {
  import opened Words
  import opened TotalSsfst
  import opened CompressedSsfst

  /** Calls of the interface, with outputs as words. Asking the packed form for a transition interns its output. */
  datatype Call =
    | NewState
    | AddTransition(from: nat, letter: nat, out: Word, to: nat)
    | SetPsi(state: nat, out: Word)
    | SetInitialOutput(out: Word)
    | CompactLabels
    | Transition(state: nat, on: nat)

  type Answer = Option<(Word, nat)>

  predicate Legal(p: Plain, alphabet: nat, call: Call) {
    && |p.psi| == |p.rows| && (forall q :: 0 <= q < |p.rows| ==> |p.rows[q]| == alphabet)
    && match call
       case AddTransition(from, letter, _, _) => from < |p.rows| && letter < alphabet
       case SetPsi(q, _) => q < |p.psi|
       case Transition(q, letter) => q < |p.rows| && letter < alphabet
       case _ => true
  }

  function Apply(p: Plain, alphabet: nat, call: Call): Plain
    requires Legal(p, alphabet, call)
  {
    match call
    case NewState => p.(rows := p.rows + [BlankRow(alphabet)], psi := p.psi + [[]])
    case AddTransition(from, letter, out, to) => p.(rows := p.rows[from := p.rows[from][letter := (out, to)]])
    case SetPsi(q, out) => p.(psi := p.psi[q := out])
    case SetInitialOutput(out) => p.(initialOut := out)
    case CompactLabels => p
    case Transition(_, _) => p
  }

  function AnswerTo(p: Plain, alphabet: nat, call: Call): Answer
    requires Legal(p, alphabet, call)
  {
    if call.Transition? then Some(p.rows[call.state][call.on]) else None
  }

  predicate LegalCalls(p: Plain, alphabet: nat, calls: seq<Call>)
    decreases calls
  {
    calls != [] ==> Legal(p, alphabet, calls[0]) && LegalCalls(Apply(p, alphabet, calls[0]), alphabet, calls[1..])
  }

  function ApplyAll(p: Plain, alphabet: nat, calls: seq<Call>): Plain
    requires LegalCalls(p, alphabet, calls)
    decreases calls
  {
    if calls == [] then p else ApplyAll(Apply(p, alphabet, calls[0]), alphabet, calls[1..])
  }

  function AnswersTo(p: Plain, alphabet: nat, calls: seq<Call>): seq<Answer>
    requires LegalCalls(p, alphabet, calls)
    decreases calls
  {
    if calls == [] then [] else [AnswerTo(p, alphabet, calls[0])] + AnswersTo(Apply(p, alphabet, calls[0]), alphabet, calls[1..])
  }

  /** The pool of the packed form has room for what one call can add to it. */
  predicate HasRoom(count: nat) {
    count + 2 <= FLAG
  }

  /** One call on each of the two: same effect, same answer. */
  method Both(a: TotalSSFST, b: CompressedTotalSSFST, call: Call) returns (x: Answer, y: Answer)
    requires a.Valid() && b.Valid() && a.alphabet == b.alphabet && a.Value() == b.Value()
    requires Legal(a.Value(), a.alphabet, call) && HasRoom(|b.texts|)
    modifies a, b
    ensures a.Valid() && b.Valid() && a.Value() == b.Value() == Apply(old(a.Value()), a.alphabet, call)
    ensures x == y == AnswerTo(old(a.Value()), a.alphabet, call)
    ensures |b.texts| <= old(|b.texts|) + 2
  {
    x, y := None, None;
    match call {
      case NewState =>
        var p := a.NewState();
        var q := b.NewState();
      case AddTransition(from, letter, out, to) =>
        var v := a.Own(out);
        a.AddTransition(from, letter, v, to);
        var w := b.Own(out);
        b.AddTransition(from, letter, w, to);
      case SetPsi(q, out) =>
        var v := a.Own(out);
        a.SetPsi(q, v);
        var w := b.Own(out);
        b.SetPsi(q, w);
      case SetInitialOutput(out) =>
        var v := a.Own(out);
        a.SetInitialOutput(v);
        var w := b.Own(out);
        b.SetInitialOutput(w);
      case CompactLabels =>
        a.CompactLabels();
        b.CompactLabels();
      case Transition(q, letter) =>
        var v, next := a.Transition(q, letter);
        x := Some((a.texts[v], next));
        var w, next' := b.Transition(q, letter);
        y := Some((b.texts[w], next'));
    }
  }

  /** Any calls, compactions among them, leave both with the transducer that the calls describe and get the same
      answers, unless the pool of the packed form runs full, which it cannot do in fewer than 2^30 calls. */
  method Replay(alphabet: nat, calls: seq<Call>)
    returns (a: TotalSSFST, b: CompressedTotalSSFST, xs: seq<Answer>, ys: seq<Answer>, full: bool)
    requires LegalCalls(Plain([], [], []), alphabet, calls)
    ensures fresh(a) && fresh(b) && a.Valid() && b.Valid() && a.alphabet == b.alphabet == alphabet
    ensures !full ==> a.Value() == b.Value() == ApplyAll(Plain([], [], []), alphabet, calls)
    ensures !full ==> xs == ys == AnswersTo(Plain([], [], []), alphabet, calls)
    ensures full ==> !HasRoom(|b.texts|) && 2 * |calls| + 1 > FLAG
  {
    a := new TotalSSFST(alphabet);
    b := new CompressedTotalSSFST(alphabet);
    ghost var start := Plain([], [], []);
    xs, ys := [], [];
    assert calls[0..] == calls;
    assert [] + AnswersTo(start, alphabet, calls) == AnswersTo(start, alphabet, calls);
    for i := 0 to |calls|
      invariant fresh(a) && fresh(b) && a.Valid() && b.Valid() && a.alphabet == b.alphabet == alphabet && a.Value() == b.Value()
      invariant |b.texts| <= 2 * i + 1
      invariant LegalCalls(a.Value(), alphabet, calls[i..])
      invariant ApplyAll(start, alphabet, calls) == ApplyAll(a.Value(), alphabet, calls[i..])
      invariant xs == ys && AnswersTo(start, alphabet, calls) == xs + AnswersTo(a.Value(), alphabet, calls[i..])
    {
      if !HasRoom(|b.texts|) {
        return a, b, xs, ys, true;
      }
      assert calls[i..][0] == calls[i] && calls[i..][1..] == calls[i + 1..];
      ghost var p := a.Value();
      var x, y := Both(a, b, calls[i]);
      JoinAnswers(xs, x, AnswersTo(a.Value(), alphabet, calls[i + 1..]));
      xs, ys := xs + [x], ys + [y];
    }
    assert xs + [] == xs;
    full := false;
  }

  lemma JoinAnswers(xs: seq<Answer>, x: Answer, rest: seq<Answer>)
    ensures xs + ([x] + rest) == (xs + [x]) + rest
  {
  }

  /** The two answer every input alike. */
  method SameAnswers(a: TotalSSFST, b: CompressedTotalSSFST, input: Word) returns (x: Word, y: Word)
    requires a.Valid() && b.Valid() && a.alphabet == b.alphabet && a.Value() == b.Value()
    requires Runnable(a.Value(), a.alphabet) && Readable(input, a.alphabet)
    ensures x == y == Translate(a.Value(), a.alphabet, input)
  {
    x := a.F(input);
    y := b.F(input);
  }
}
