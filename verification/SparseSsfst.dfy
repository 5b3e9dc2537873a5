/** The subsequential transducer with sparse transitions: builder operations and `f`. */
module SparseSsfst {
  import opened Words

  /** The fields of the transducer as one value: state 0 is initial. */
  datatype Machine = Machine(n: nat, trans: map<(nat, Symbol), (Word, nat)>, finals: set<nat>, output: map<nat, Word>)

  /** Following the transitions from q along u: what is emitted and where it ends. */
  function Walk(m: Machine, q: nat, u: Word): Option<(Word, nat)>
    decreases u
  {
    if u == [] then Some(([], q))
    else if (q, u[0]) !in m.trans then None
    else
      var (w, q') := m.trans[(q, u[0])];
      match Walk(m, q', u[1..])
      case None => None
      case Some((o, p)) => Some((w + o, p))
  }

  /** `f` rejects, accepts with an output, or throws at a final state without a final output. */
  datatype Answer = Reject | Accept(out: Word) | Throw

  function AnswerTo(m: Machine, u: Word): Answer {
    match Walk(m, 0, u)
    case None => Reject
    case Some((o, p)) => if p !in m.finals then Reject else if p in m.output then Accept(o + m.output[p]) else Throw
  }

  class SparseSSFST {
    var n: nat
    var trans: map<(nat, Symbol), (Word, nat)>
    var finals: set<nat>
    var output: map<nat, Word>

    ghost function Value(): Machine
      reads this
    {
      Machine(n, trans, finals, output)
    }

    constructor ()
      ensures Value() == Machine(0, map[], {}, map[])
    {
      n, trans, finals, output := 0, map[], {}, map[];
    }

    method NewState() returns (q: nat)
      modifies this
      ensures q == old(n) && Value() == old(Value()).(n := q + 1)
    {
      q := n;
      n := n + 1;
    }

    method AddTransition(from: nat, sym: Symbol, out: Word, to: nat)
      modifies this
      ensures Value() == old(Value()).(trans := old(trans)[(from, sym) := (out, to)])
    {
      trans := trans[(from, sym) := (out, to)];
    }

    method AddFinal(q: nat)
      modifies this
      ensures Value() == old(Value()).(finals := old(finals) + {q})
    {
      finals := finals + {q};
    }

    method SetPsi(q: nat, out: Word)
      modifies this
      ensures Value() == old(Value()).(output := old(output)[q := out])
    {
      output := output[q := out];
    }

    method F(input: Word) returns (answer: Answer)
      ensures answer == AnswerTo(Value(), input)
    {
      var out: Word := [];
      var current := 0;
      ghost var m := Value();
      assert input[0..] == input;
      EmittedNothing(Walk(m, 0, input));
      for i := 0 to |input|
        invariant m == Value()
        invariant Walk(m, 0, input) == Emitted(out, Walk(m, current, input[i..]))
      {
        assert input[i..][1..] == input[i + 1..];
        if (current, input[i]) !in trans {
          return Reject;
        }
        var (w, next) := trans[(current, input[i])];
        EmittedTwice(out, w, Walk(m, next, input[i + 1..]));
        out, current := out + w, next;
      }
      if current !in finals {
        return Reject;
      }
      if current !in output {
        return Throw;
      }
      assert out + [] == out;
      return Accept(out + output[current]);
    }
  }

  function Emitted(out: Word, rest: Option<(Word, nat)>): Option<(Word, nat)> {
    match rest
    case None => None
    case Some((o, p)) => Some((out + o, p))
  }

  lemma EmittedTwice(out: Word, w: Word, rest: Option<(Word, nat)>)
    ensures Emitted(out, Emitted(w, rest)) == Emitted(out + w, rest)
  {
    if rest.Some? {
      assert out + (w + rest.value.0) == (out + w) + rest.value.0;
    }
  }

  lemma EmittedNothing(rest: Option<(Word, nat)>)
    ensures Emitted([], rest) == rest
  {
    if rest.Some? {
      assert [] + rest.value.0 == rest.value.0;
    }
  }
}
