/** States of the string pool and of its scratch operands, and what every run over them keeps. */
module Pool {
  import opened Words
  import opened Compaction

  /** A word under construction: a slice of the scratch buffer, or of the pool's own buffer. */
  datatype Operand = Operand(slice: Slice, fromTemporaries: bool)

  /** The live operands are counted with their copies. */
  datatype State = State(words: Word, data: seq<Slice>, scratch: Word, temps: multiset<Operand>, plains: multiset<Operand>)

  ghost predicate Ok(s: State) {
    && PoolOk(s.words, s.data)
    && (forall op {:trigger s.temps[op]} :: op in s.temps ==> op.fromTemporaries && op.slice.End() <= |s.scratch|)
    && (forall op {:trigger s.plains[op]} :: op in s.plains ==> !op.fromTemporaries && op.slice.End() <= |s.words|)
    && (|s.temps| == 0 ==> s.scratch == [])
  }

  predicate Live(s: State, op: Operand) {
    if op.fromTemporaries then op in s.temps else op in s.plains
  }

  ghost function WordOf(s: State, id: nat): Word
    requires Ok(s) && id < |s.data|
  {
    Text(s.words, s.data[id])
  }

  ghost function OperandWord(s: State, op: Operand): Word
    requires Ok(s) && Live(s, op)
  {
    if op.fromTemporaries then Text(s.scratch, op.slice) else Text(s.words, op.slice)
  }

  // ---------- the operations ----------

  ghost predicate Known(s: State, w: Word)
    requires Ok(s)
  {
    exists id: nat :: id < |s.data| && WordOf(s, id) == w
  }

  /** A new word is appended to the buffer and gets the next id. */
  ghost function Interned(s: State, w: Word): State
    requires Ok(s)
  {
    if Known(s, w) then s else s.(words := s.words + w, data := s.data + [Slice(|s.words|, |w|)])
  }

  /** A slice of the buffer gets an id of its own, unless its word has one. */
  ghost function SliceInterned(s: State, slice: Slice): State
    requires Ok(s) && slice.End() <= |s.words|
  {
    if Known(s, Text(s.words, slice)) then s else s.(data := s.data + [slice])
  }

  /** A word is put at the end of the scratch buffer and an operand for it is made. */
  ghost function ScratchAdded(s: State, w: Word): State {
    s.(scratch := s.scratch + w, temps := s.temps + multiset{Operand(Slice(|s.scratch|, |w|), true)})
  }

  ghost function Added(s: State, op: Operand): State {
    if op.fromTemporaries then s.(temps := s.temps + multiset{op}) else s.(plains := s.plains + multiset{op})
  }

  /** When the last scratch operand dies, the scratch buffer is emptied. */
  ghost function Killed(s: State, op: Operand): State {
    if op.fromTemporaries then
      s.(temps := s.temps - multiset{op}, scratch := if |s.temps - multiset{op}| == 0 then [] else s.scratch)
    else
      s.(plains := s.plains - multiset{op})
  }

  /** An operand may be made for any slice of a buffer that is in use. */
  predicate CanView(s: State, op: Operand) {
    if op.fromTemporaries then |s.temps| > 0 && op.slice.End() <= |s.scratch| else op.slice.End() <= |s.words|
  }

  /** One call of the pool, or one copy, assignment or death of an operand. */
  ghost predicate Step(s: State, s': State)
    requires Ok(s)
  {
    || (exists w :: s' == Interned(s, w))
    || (exists slice: Slice :: slice.End() <= |s.words| && s' == SliceInterned(s, slice))
    || (exists w :: s' == ScratchAdded(s, w))
    || (exists op :: CanView(s, op) && s' == Added(s, op))
    || (exists op :: Live(s, op) && s' == Killed(s, op))
    || (exists op, rhs {:trigger Assigned(s, op, rhs)} :: CanAssign(s, op, rhs) && s' == Assigned(s, op, rhs))
  }

  /** Two different operand objects are live; the first one is overwritten by the second. */
  predicate CanAssign(s: State, op: Operand, rhs: Operand) {
    Live(s, op) && Live(s, rhs) && (op == rhs ==> (if op.fromTemporaries then s.temps[op] else s.plains[op]) >= 2)
  }

  ghost function Assigned(s: State, op: Operand, rhs: Operand): State {
    Added(Killed(s, op), rhs)
  }

  // ---------- what one step keeps ----------

  /** No id changes its word, and no operand that stays live does. */
  ghost predicate Keeps(s: State, s': State)
    requires Ok(s) && Ok(s')
  {
    && |s.data| <= |s'.data|
    && (forall id: nat {:trigger s.data[id]} {:trigger s'.data[id]} :: id < |s.data| ==> WordOf(s', id) == WordOf(s, id))
    && (forall op :: Live(s, op) && Live(s', op) ==> OperandWord(s', op) == OperandWord(s, op))
  }

  lemma OneMore(m: multiset<Operand>, x: Operand)
    ensures |m + multiset{x}| == |m| + 1
    ensures forall y {:trigger (m + multiset{x})[y]} :: y in m + multiset{x} <==> y in m || y == x
  {
  }

  lemma OneLess(m: multiset<Operand>, x: Operand)
    requires x in m
    ensures |m - multiset{x}| == |m| - 1
    ensures forall y {:trigger (m - multiset{x})[y]} :: y in m - multiset{x} <==> y in m && (y == x ==> m[x] >= 2)
  {
    assert m == (m - multiset{x}) + multiset{x};
  }

  lemma TextKept(words: Word, more: Word, slice: Slice)
    requires slice.End() <= |words|
    ensures Text(words + more, slice) == Text(words, slice)
  {
  }

  /** One more slice, with a word that no other one has. */
  lemma DifferMore(words: Word, data: seq<Slice>, slice: Slice)
    requires InBounds(words, data) && WordsDiffer(words, data) && slice.End() <= |words|
    requires forall i {:trigger data[i]} :: 0 <= i < |data| ==> Text(words, data[i]) != Text(words, slice)
    ensures InBounds(words, data + [slice]) && WordsDiffer(words, data + [slice])
  {
    hide Text;
    var data' := data + [slice];
    assert forall i :: 0 <= i < |data| ==> data'[i] == data[i];
  }

  lemma TightKept(words: Word, data: seq<Slice>, slice: Slice)
    requires EndsTight(words, data) || slice.End() == |words|
    ensures EndsTight(words, data + [slice])
  {
    var data' := data + [slice];
    if EndsTight(words, data) {
      var last :| 0 <= last < |data| && data[last].End() == |words|;
      assert data'[last].End() == |words|;
    } else {
      assert data'[|data|].End() == |words|;
    }
  }

  /** A slice with a word that no id has may be added to the table. */
  lemma SliceAdded(words: Word, data: seq<Slice>, slice: Slice)
    requires PoolOk(words, data) && slice.End() <= |words|
    requires forall i {:trigger data[i]} :: 0 <= i < |data| ==> Text(words, data[i]) != Text(words, slice)
    ensures PoolOk(words, data + [slice])
  {
    hide Text, EndsTight, WordsDiffer;
    DifferMore(words, data, slice);
    TightKept(words, data, slice);
  }

  lemma BufferGrows(words: Word, data: seq<Slice>, w: Word)
    requires InBounds(words, data) && WordsDiffer(words, data)
    ensures InBounds(words + w, data) && WordsDiffer(words + w, data)
    ensures forall i {:trigger data[i]} :: 0 <= i < |data| ==> Text(words + w, data[i]) == Text(words, data[i])
  {
    forall i | 0 <= i < |data| ensures Text(words + w, data[i]) == Text(words, data[i]) {
      TextKept(words, w, data[i]);
    }
    hide Text;
  }

  lemma TextBehind(words: Word, w: Word, slice: Slice)
    requires slice.start == |words| && slice.length == |w|
    ensures slice.End() == |words + w| && Text(words + w, slice) == w
  {
  }

  /** A word that no id has may be put behind the buffer. */
  lemma WordAdded(words: Word, data: seq<Slice>, w: Word, slice: Slice)
    requires PoolOk(words, data) && forall i {:trigger data[i]} :: 0 <= i < |data| ==> Text(words, data[i]) != w
    requires slice.start == |words| && slice.length == |w|
    ensures PoolOk(words + w, data + [slice])
    ensures slice.End() == |words + w| && Text(words + w, slice) == w
    ensures forall i {:trigger data[i]} :: 0 <= i < |data| ==> Text(words + w, data[i]) == Text(words, data[i])
  {
    hide Text, EndsTight, WordsDiffer;
    TextBehind(words, w, slice);
    BufferGrows(words, data, w);
    DifferMore(words + w, data, slice);
    TightKept(words + w, data, slice);
  }

  lemma UnknownWord(s: State, w: Word)
    requires Ok(s) && !Known(s, w)
    ensures forall i {:trigger s.data[i]} :: 0 <= i < |s.data| ==> Text(s.words, s.data[i]) != w
  {
    hide Text, WordsDiffer, EndsTight;
    forall i: nat | i < |s.data| ensures Text(s.words, s.data[i]) != w {
      assert WordOf(s, i) == Text(s.words, s.data[i]);
    }
  }

  lemma InternedOk(s: State, w: Word)
    requires Ok(s)
    ensures Ok(Interned(s, w)) && Keeps(s, Interned(s, w)) && Known(Interned(s, w), w)
  {
    var s' := Interned(s, w);
    if s' != s {
      UnknownWord(s, w);
      WordAdded(s.words, s.data, w, Slice(|s.words|, |w|));
      hide PoolOk, Text;
      forall op | Live(s, op) && Live(s', op) && !op.fromTemporaries ensures Text(s'.words, op.slice) == Text(s.words, op.slice) {
        TextKept(s.words, w, op.slice);
      }
      assert WordOf(s', |s.data|) == w;
    }
  }

  lemma SliceInternedOk(s: State, slice: Slice)
    requires Ok(s) && slice.End() <= |s.words|
    ensures Ok(SliceInterned(s, slice)) && Keeps(s, SliceInterned(s, slice)) && Known(SliceInterned(s, slice), Text(s.words, slice))
  {
    hide Text;
    var s' := SliceInterned(s, slice);
    if s' != s {
      UnknownWord(s, Text(s.words, slice));
      SliceAdded(s.words, s.data, slice);
      hide PoolOk;
      assert WordOf(s', |s.data|) == Text(s.words, slice);
    }
  }

  lemma KeepsSame(s: State, s': State)
    requires Ok(s) && Ok(s') && s'.words == s.words && s'.data == s.data
    requires forall op {:trigger Live(s', op)} :: Live(s, op) && Live(s', op) && op.fromTemporaries ==> Text(s'.scratch, op.slice) == Text(s.scratch, op.slice)
    ensures Keeps(s, s')
  {
    hide Text, PoolOk;
    forall id: nat | id < |s.data| ensures WordOf(s', id) == WordOf(s, id) {
    }
  }

  lemma ScratchAddedOk(s: State, w: Word)
    requires Ok(s)
    ensures
      var op := Operand(Slice(|s.scratch|, |w|), true);
      var s' := ScratchAdded(s, w);
      Ok(s') && Keeps(s, s') && Live(s', op) && OperandWord(s', op) == w
  {
    var s' := ScratchAdded(s, w);
    OneMore(s.temps, Operand(Slice(|s.scratch|, |w|), true));
    assert s'.scratch[|s.scratch|..|s.scratch| + |w|] == w;
    hide PoolOk;
    assert Ok(s');
    forall op | Live(s, op) && Live(s', op) && op.fromTemporaries ensures Text(s'.scratch, op.slice) == Text(s.scratch, op.slice) {
      TextKept(s.scratch, w, op.slice);
    }
    KeepsSame(s, s');
  }

  lemma AddedOk(s: State, op: Operand)
    requires Ok(s) && CanView(s, op)
    ensures Ok(Added(s, op)) && Keeps(s, Added(s, op)) && Live(Added(s, op), op)
  {
    hide Text, PoolOk;
    OneMore(s.temps, op);
    OneMore(s.plains, op);
    assert Ok(Added(s, op));
    KeepsSame(s, Added(s, op));
  }

  lemma KilledOk(s: State, op: Operand)
    requires Ok(s) && Live(s, op)
    ensures Ok(Killed(s, op)) && Keeps(s, Killed(s, op))
  {
    hide Text, PoolOk;
    var s' := Killed(s, op);
    if op.fromTemporaries {
      OneLess(s.temps, op);
      forall x | x in s'.temps ensures |s'.temps| > 0 {
        SomethingIn(s'.temps, x);
      }
    } else {
      OneLess(s.plains, op);
    }
    assert Ok(s');
    KeepsSame(s, s');
  }

  lemma SomethingIn(m: multiset<Operand>, x: Operand)
    requires x in m
    ensures |m| > 0
  {
    OneLess(m, x);
  }

  lemma AssignedOk(s: State, op: Operand, rhs: Operand)
    requires Ok(s) && CanAssign(s, op, rhs)
    ensures Ok(Assigned(s, op, rhs)) && Keeps(s, Assigned(s, op, rhs))
    ensures Live(Assigned(s, op, rhs), rhs) && OperandWord(Assigned(s, op, rhs), rhs) == OperandWord(s, rhs)
  {
    KilledOk(s, op);
    var k := Killed(s, op);
    StillLive(s, op, rhs);
    hide Ok, Killed, Live, CanAssign;
    AddedOk(k, rhs);
    KeepsTwice(s, k, Added(k, rhs));
  }

  /** The right-hand side survives the death of the left-hand side. */
  lemma StillLive(s: State, op: Operand, rhs: Operand)
    requires Ok(s) && CanAssign(s, op, rhs)
    ensures Ok(Killed(s, op)) && Live(Killed(s, op), rhs) && CanView(Killed(s, op), rhs)
  {
    hide Text, PoolOk;
    KilledOk(s, op);
    var k := Killed(s, op);
    if op.fromTemporaries {
      OneLess(s.temps, op);
    } else {
      OneLess(s.plains, op);
    }
    if rhs.fromTemporaries {
      SomethingIn(k.temps, rhs);
    }
  }

  /** What is live after killing and adding was live before, and keeps its word. */
  lemma KeepsTwice(s: State, k: State, s': State)
    requires Ok(s) && Ok(k) && Ok(s') && Keeps(s, k) && Keeps(k, s')
    requires forall op {:trigger Live(s', op)} :: Live(s, op) && Live(s', op) ==> Live(k, op)
    ensures Keeps(s, s')
  {
    hide Ok, WordOf, OperandWord, Live;
    forall id: nat | id < |s.data| ensures WordOf(s', id) == WordOf(s, id) {
      var slice := k.data[id];
    }
  }

  lemma StepOk(s: State, s': State)
    requires Ok(s) && Step(s, s')
    ensures Ok(s') && Keeps(s, s')
  {
    hide Ok, Known, Keeps;
    if w :| s' == Interned(s, w) {
      InternedOk(s, w);
    } else if slice: Slice :| slice.End() <= |s.words| && s' == SliceInterned(s, slice) {
      SliceInternedOk(s, slice);
    } else if w :| s' == ScratchAdded(s, w) {
      ScratchAddedOk(s, w);
    } else if op :| CanView(s, op) && s' == Added(s, op) {
      AddedOk(s, op);
    } else if op :| Live(s, op) && s' == Killed(s, op) {
      KilledOk(s, op);
    } else {
      var op, rhs :| CanAssign(s, op, rhs) && s' == Assigned(s, op, rhs);
      AssignedOk(s, op, rhs);
    }
  }

  // ---------- whole runs ----------

  /** A pool as it is made: the empty word and nothing else. */
  function Fresh(): State {
    State([], [Slice(0, 0)], [], multiset{}, multiset{})
  }

  ghost predicate IsRun(run: seq<State>) {
    && run != [] && run[0] == Fresh()
    && forall i: nat {:trigger run[i]} :: i + 1 < |run| ==> Ok(run[i]) ==> Step(run[i], run[i + 1])
  }

  lemma FreshOk()
    ensures Ok(Fresh())
  {
    FreshFields();
    hide PoolOk, Ok, Fresh;
    FreshPoolOk(Fresh().words, Fresh().data);
    NoOperandsOk(Fresh());
  }

  lemma FreshFields()
    ensures |Fresh().words| == 0 && |Fresh().data| == 1 && Fresh().data[0] == Slice(0, 0)
    ensures Fresh().scratch == [] && Fresh().temps == multiset{} && Fresh().plains == multiset{}
  {
  }

  lemma NoOperandsOk(s: State)
    requires PoolOk(s.words, s.data) && s.scratch == [] && s.temps == multiset{} && s.plains == multiset{}
    ensures Ok(s)
  {
    hide PoolOk;
  }

  lemma FreshPoolOk(words: Word, data: seq<Slice>)
    requires |words| == 0 && |data| == 1 && data[0].End() == 0 && data[0].length == 0
    ensures PoolOk(words, data)
  {
    hide Text, WordsDiffer, EndsTight, InBounds;
    OneInBounds(words, data);
    OneWordDiffers(words, data);
    OneEndsTight(words, data);
  }

  lemma OneInBounds(words: Word, data: seq<Slice>)
    requires |data| == 1 && data[0].End() <= |words|
    ensures InBounds(words, data)
  {
  }

  lemma OneWordDiffers(words: Word, data: seq<Slice>)
    requires |data| <= 1 && InBounds(words, data)
    ensures WordsDiffer(words, data)
  {
    hide Text;
  }

  lemma OneEndsTight(words: Word, data: seq<Slice>)
    requires |data| == 1 && data[0].End() == |words|
    ensures EndsTight(words, data)
  {
  }

  lemma {:induction false} RunOk(run: seq<State>, i: nat)
    requires IsRun(run) && i < |run|
    ensures Ok(run[i])
    decreases i
  {
    hide Ok, Step;
    if i == 0 {
      FreshOk();
    } else {
      RunOk(run, i - 1);
      assert run[i - 1 + 1] == run[i];
      StepOk(run[i - 1], run[i]);
    }
  }

  /** Over every run, an id keeps its word from the moment it is given out. */
  lemma {:induction false} RunKeepsWords(run: seq<State>, i: nat, j: nat, id: nat)
    requires IsRun(run) && i <= j < |run|
    requires Ok(run[i]) && id < |run[i].data|
    ensures Ok(run[j]) && id < |run[j].data| && WordOf(run[j], id) == WordOf(run[i], id)
    decreases j
  {
    hide Ok, Step, WordOf;
    RunOk(run, j);
    if i < j {
      RunKeepsWords(run, i, j - 1, id);
      RunOk(run, j - 1);
      assert run[j - 1 + 1] == run[j];
      StepOk(run[j - 1], run[j]);
      var slice := run[j - 1].data[id];
    }
  }

  /** Two different ids never have one word. */
  lemma RunKeepsIdsApart(run: seq<State>, i: nat, id: nat, id': nat)
    requires IsRun(run) && i < |run| && Ok(run[i]) && id < |run[i].data| && id' < |run[i].data| && id != id'
    ensures WordOf(run[i], id) != WordOf(run[i], id')
  {
    hide Text;
    if id < id' {
      assert Text(run[i].words, run[i].data[id]) != Text(run[i].words, run[i].data[id']);
    } else {
      assert Text(run[i].words, run[i].data[id']) != Text(run[i].words, run[i].data[id]);
    }
  }

  /** While an operand stays live, its word does not change. */
  lemma {:induction false} RunKeepsOperands(run: seq<State>, i: nat, j: nat, op: Operand)
    requires IsRun(run) && i <= j < |run| && forall k {:trigger run[k]} :: i <= k <= j ==> Live(run[k], op)
    requires Ok(run[i]) && Ok(run[j])
    ensures OperandWord(run[j], op) == OperandWord(run[i], op)
    decreases j
  {
    hide Ok, Step, OperandWord, Live;
    if i < j {
      RunOk(run, j - 1);
      RunKeepsOperands(run, i, j - 1, op);
      assert run[j - 1 + 1] == run[j];
      StepOk(run[j - 1], run[j]);
      assert Live(run[j], op);
    }
  }

  /** The scratch buffer is empty whenever no scratch operand is live. */
  lemma RunEmptiesScratch(run: seq<State>, i: nat)
    requires IsRun(run) && i < |run| && |run[i].temps| == 0
    ensures run[i].scratch == []
  {
    hide PoolOk, Step;
    RunOk(run, i);
  }
}
