/** The total subsequential transducer: every state is final and every letter can be read. */
module TotalSsfst {
  import opened Words
  import opened Compaction
  import opened Subsequential

  /** What the builder calls describe: outputs are words, not ids. */
  datatype Plain = Plain(rows: seq<seq<(Word, nat)>>, psi: seq<Word>, initialOut: Word)

  function BlankRow(alphabet: nat): seq<(Word, nat)> {
    seq(alphabet, l => ([], 0))
  }

  /** Every target is a state, and every row has an entry for each letter. */
  predicate Closed(p: Plain, alphabet: nat) {
    && |p.psi| == |p.rows|
    && forall q, l :: 0 <= q < |p.rows| && 0 <= l < |p.rows[q]| ==> |p.rows[q]| == alphabet && p.rows[q][l].1 < |p.rows|
  }

  predicate Readable(input: Word, alphabet: nat) {
    forall i :: 0 <= i < |input| ==> input[i] < alphabet
  }

  /** The outputs along input from q, and the final output at the end. */
  function Emit(p: Plain, alphabet: nat, q: nat, input: Word): Word
    requires Closed(p, alphabet) && q < |p.rows| && |p.rows[q]| == alphabet && Readable(input, alphabet)
    requires forall r :: 0 <= r < |p.rows| ==> |p.rows[r]| == alphabet
    decreases input
  {
    if input == [] then p.psi[q] else p.rows[q][input[0]].0 + Emit(p, alphabet, p.rows[q][input[0]].1, input[1..])
  }

  predicate Runnable(p: Plain, alphabet: nat) {
    Closed(p, alphabet) && |p.rows| >= 1 && forall r :: 0 <= r < |p.rows| ==> |p.rows[r]| == alphabet
  }

  function Translate(p: Plain, alphabet: nat, input: Word): Word
    requires Runnable(p, alphabet) && Readable(input, alphabet)
  {
    p.initialOut + Emit(p, alphabet, 0, input)
  }

  /** The same as a subsequential transducer: one arc for each letter, and every state final. */
  function AsSsfst(p: Plain, alphabet: nat): (t: SSFST)
    requires Runnable(p, alphabet)
    ensures t.Valid() && t.Size() == |p.rows|
  {
    SSFST(
      seq(|p.rows|, q requires 0 <= q < |p.rows| => RowArcs(p.rows[q])),
      seq(|p.psi|, q requires 0 <= q < |p.psi| => Some(p.psi[q])),
      p.initialOut)
  }

  function RowArcs(row: seq<(Word, nat)>): (arcs: seq<Arc>)
    ensures |arcs| == |row| && forall l {:trigger arcs[l]} :: 0 <= l < |row| ==> arcs[l] == Arc(l, row[l].0, row[l].1)
  {
    seq(|row|, l requires 0 <= l < |row| => Arc(l, row[l].0, row[l].1))
  }

  /** From every state, the runs on an input emit one word. */
  lemma {:induction false} EmitIsRel(p: Plain, alphabet: nat, q: nat, input: Word, v: Word)
    requires Runnable(p, alphabet) && Readable(input, alphabet) && q < |p.rows|
    ensures Rel(AsSsfst(p, alphabet), q, input, v) <==> v == Emit(p, alphabet, q, input)
    decreases input
  {
    hide Rel;
    var t := AsSsfst(p, alphabet);
    if input == [] {
      RelEnd(t, q, v);
    } else {
      var l := input[0];
      var a := Arc(l, p.rows[q][l].0, p.rows[q][l].1);
      assert t.arcs[q][l] == a && input == [l] + input[1..];
      if Rel(t, q, input, v) {
        var b, rest := FirstArc(t, q, input, v);
        var i :| 0 <= i < |t.arcs[q]| && t.arcs[q][i] == b;
        assert i == l;
        EmitIsRel(p, alphabet, a.to, input[1..], rest);
      }
      if v == Emit(p, alphabet, q, input) {
        var rest := Emit(p, alphabet, a.to, input[1..]);
        EmitIsRel(p, alphabet, a.to, input[1..], rest);
        RelStep(t, q, a, input[1..], rest);
      }
    }
  }

  /** The relation of the transducer is a total function on the inputs over its alphabet. */
  lemma TranslateIsRelation(p: Plain, alphabet: nat, input: Word, v: Word)
    requires Runnable(p, alphabet) && Readable(input, alphabet)
    ensures Translates(AsSsfst(p, alphabet), input, v) <==> v == Translate(p, alphabet, input)
  {
    hide Rel;
    var rest := Emit(p, alphabet, 0, input);
    EmitIsRel(p, alphabet, 0, input, rest);
    if p.initialOut <= v {
      EmitIsRel(p, alphabet, 0, input, v[|p.initialOut|..]);
      assert v == p.initialOut + v[|p.initialOut|..];
    }
    assert (p.initialOut + rest)[|p.initialOut|..] == rest;
  }

  // ---------- the pool as a table of words ----------

  predicate Texts(texts: seq<Word>) {
    && texts != [] && texts[0] == []
    && forall i, j :: 0 <= i < j < |texts| ==> texts[i] != texts[j]
  }

  method Intern(texts: seq<Word>, w: Word) returns (texts': seq<Word>, id: nat)
    requires Texts(texts)
    ensures Texts(texts') && texts <= texts' && id < |texts'| && texts'[id] == w && |texts'| <= |texts| + 1
    ensures w in texts ==> texts' == texts
  {
    id := 0;
    texts' := texts;
    while id < |texts|
      invariant id <= |texts| && w !in texts[..id]
    {
      if texts[id] == w {
        return;
      }
      id := id + 1;
    }
    assert texts[..id] == texts;
    texts' := texts + [w];
    assert texts'[id] == w;
  }

  /** Keeps the words with the given ids and the empty one, numbered densely in the old order. */
  method CompactTexts(texts: seq<Word>, ids: seq<nat>) returns (texts': seq<Word>, ids': seq<nat>)
    requires Texts(texts) && AllBelow(ids, |texts|)
    ensures Texts(texts') && |texts'| <= |texts| && |ids'| == |ids|
    ensures forall i {:trigger ids'[i]} :: 0 <= i < |ids| ==> ids'[i] < |texts'| && texts'[ids'[i]] == texts[ids[i]]
    ensures forall k :: 0 < k < |texts'| ==> k in ids'
  {
    var live := MarkLive(|texts|, ids);
    var oldToNew, liveIds := Number(live);
    NumbersFacts(live, ids, oldToNew, liveIds);
    texts' := seq(|liveIds|, k requires 0 <= k < |liveIds| => texts[liveIds[k]]);
    ids' := seq(|ids|, i requires 0 <= i < |ids| => oldToNew[ids[i]].value);
    FewLive(liveIds, |texts|);
    Renumbered(live, ids, oldToNew, liveIds);
    forall i | 0 <= i < |ids| ensures ids'[i] < |texts'| && texts'[ids'[i]] == texts[ids[i]] {
      var id := ids[i];
    }
    forall k, l | 0 <= k < l < |texts'| ensures texts'[k] != texts'[l] {
      assert liveIds[k] < liveIds[l];
    }
    forall k: nat | 0 < k < |texts'| ensures k in ids' {
      var i := RenumberedBack(live, ids, oldToNew, liveIds, k);
      assert ids'[i] == k;
    }
  }

  lemma {:induction false} FewLive(ids: seq<nat>, n: nat)
    requires AllBelow(ids, n) && Increasing(ids)
    ensures |ids| <= n
    decreases n
  {
    if ids != [] {
      FewLive(ids[..|ids| - 1], ids[|ids| - 1]);
    }
  }

  lemma Renumbered(live: seq<bool>, ids: seq<nat>, oldToNew: seq<Option<nat>>, liveIds: seq<nat>)
    requires |live| == |oldToNew| >= 1 && Numbers(live, |live|, oldToNew, liveIds) && AllBelow(ids, |live|)
    requires forall id :: 0 <= id < |live| ==> (live[id] <==> id == 0 || id in ids)
    requires liveIds != [] && liveIds[0] == 0
    ensures forall i {:trigger ids[i]} :: 0 <= i < |ids| ==> oldToNew[ids[i]].Some? && oldToNew[ids[i]].value < |liveIds| && liveIds[oldToNew[ids[i]].value] == ids[i]
  {
    forall i | 0 <= i < |ids| ensures oldToNew[ids[i]].Some? && oldToNew[ids[i]].value < |liveIds| && liveIds[oldToNew[ids[i]].value] == ids[i] {
      assert live[ids[i]];
    }
  }

  lemma RenumberedBack(live: seq<bool>, ids: seq<nat>, oldToNew: seq<Option<nat>>, liveIds: seq<nat>, k: nat) returns (i: nat)
    requires |live| == |oldToNew| >= 1 && Numbers(live, |live|, oldToNew, liveIds) && AllBelow(ids, |live|)
    requires forall id :: 0 <= id < |live| ==> (live[id] <==> id == 0 || id in ids)
    requires liveIds != [] && liveIds[0] == 0 && 0 < k < |liveIds|
    ensures i < |ids| && oldToNew[ids[i]] == Some(k)
  {
    var id := liveIds[k];
    assert live[id] && liveIds[0] < id;
    i :| 0 <= i < |ids| && ids[i] == id;
    var n := oldToNew[id].value;
    assert liveIds[n] == id;
    IncreasingInjective(liveIds, n, k);
  }

  lemma IncreasingInjective(ids: seq<nat>, n: nat, k: nat)
    requires Increasing(ids) && n < |ids| && k < |ids| && ids[n] == ids[k]
    ensures n == k
  {
  }

  // ---------- the transducer ----------

  datatype Trans = Trans(outputId: nat, next: nat)

  /** A row as it is made: empty outputs, back to state 0. */
  function NewRow(alphabet: nat): seq<Trans> {
    seq(alphabet, l => Trans(0, 0))
  }

  predicate RowOk(texts: seq<Word>, row: seq<Trans>) {
    forall l :: 0 <= l < |row| ==> row[l].outputId < |texts|
  }

  function RowOf(texts: seq<Word>, row: seq<Trans>): seq<(Word, nat)>
    requires RowOk(texts, row)
  {
    seq(|row|, l requires 0 <= l < |row| => (texts[row[l].outputId], row[l].next))
  }

  predicate RowsOk(texts: seq<Word>, rows: seq<seq<Trans>>) {
    forall q :: 0 <= q < |rows| ==> RowOk(texts, rows[q])
  }

  function RowsOf(texts: seq<Word>, rows: seq<seq<Trans>>): seq<seq<(Word, nat)>>
    requires RowsOk(texts, rows)
  {
    seq(|rows|, q requires 0 <= q < |rows| => RowOf(texts, rows[q]))
  }

  function WordsOf(texts: seq<Word>, ids: seq<nat>): seq<Word>
    requires AllBelow(ids, |texts|)
  {
    seq(|ids|, i requires 0 <= i < |ids| => texts[ids[i]])
  }

  class TotalSSFST {
    const alphabet: nat
    var texts: seq<Word>
    var transitions: seq<seq<Trans>>
    var output: seq<nat>
    var initialOut: nat

    ghost predicate Valid()
      reads this
    {
      && Texts(texts) && |output| == |transitions| && initialOut < |texts| && AllBelow(output, |texts|) && RowsOk(texts, transitions)
      && forall q :: 0 <= q < |transitions| ==> |transitions[q]| == alphabet
    }

    ghost function Value(): Plain
      reads this
      requires Valid()
    {
      Plain(RowsOf(texts, transitions), WordsOf(texts, output), texts[initialOut])
    }

    constructor (alphabet: nat)
      ensures Valid() && Value() == Plain([], [], []) && this.alphabet == alphabet
    {
      this.alphabet := alphabet;
      texts, transitions, output, initialOut := [[]], [], [], 0;
      new;
      assert Value() == Plain([], [], []);
    }

    method NewState() returns (q: nat)
      requires Valid()
      modifies this
      ensures Valid() && q == |old(transitions)|
      ensures Value() == old(Value()).(rows := old(Value()).rows + [BlankRow(alphabet)], psi := old(Value()).psi + [[]])
      ensures forall l :: 0 <= l < alphabet ==> Value().rows[q][l] == ([], 0)
    {
      ghost var was := Value();
      q := |transitions|;
      transitions := transitions + [NewRow(alphabet)];
      output := output + [0];
      RowsSnoc(texts, old(transitions), NewRow(alphabet));
      assert RowOf(texts, NewRow(alphabet)) == BlankRow(alphabet);
      assert Value().psi == was.psi + [[]];
    }

    /** The output word is interned in the pool of this transducer. */
    method Own(w: Word) returns (id: nat)
      requires Valid()
      modifies this`texts
      ensures Valid() && Value() == old(Value()) && id < |texts| && texts[id] == w && |texts| <= |old(texts)| + 1
    {
      ghost var was := Value();
      texts, id := Intern(texts, w);
      MoreTexts(old(texts), texts, transitions, output);
      assert Value() == was;
    }

    method AddTransition(from: nat, letter: nat, out: nat, to: nat)
      requires Valid() && from < |transitions| && letter < alphabet && out < |texts|
      modifies this
      ensures Valid() && texts == old(texts) && |transitions| == |old(transitions)|
      ensures Value() == old(Value()).(rows := old(Value()).rows[from := old(Value()).rows[from][letter := (texts[out], to)]])
    {
      ghost var was := Value();
      transitions := transitions[from := transitions[from][letter := Trans(out, to)]];
      assert RowOf(texts, transitions[from]) == was.rows[from][letter := (texts[out], to)];
      assert Value().rows == was.rows[from := was.rows[from][letter := (texts[out], to)]];
    }

    /** The id of the output and the next state, read from the table. */
    method Transition(q: nat, letter: nat) returns (id: nat, next: nat)
      requires Valid() && q < |transitions| && letter < alphabet
      ensures id < |texts| && (texts[id], next) == Value().rows[q][letter]
    {
      var t := transitions[q][letter];
      assert RowOk(texts, transitions[q]);
      id, next := t.outputId, t.next;
    }

    method SetInitialOutput(out: nat)
      requires Valid() && out < |texts|
      modifies this
      ensures Valid() && texts == old(texts) && Value() == old(Value()).(initialOut := texts[out])
    {
      initialOut := out;
    }

    method SetPsi(q: nat, out: nat)
      requires Valid() && q < |output| && out < |texts|
      modifies this
      ensures Valid() && texts == old(texts) && Value() == old(Value()).(psi := old(Value()).psi[q := texts[out]])
    {
      ghost var was := Value();
      output := output[q := out];
      assert Value().psi == was.psi[q := texts[out]];
    }

    /** Keeps only the words in use; every slot is renumbered in place. */
    method CompactLabels()
      requires Valid()
      modifies this
      ensures Valid() && Value() == old(Value()) && |texts| <= |old(texts)| && |transitions| == |old(transitions)| && |output| == |old(output)|
      ensures forall k: nat :: 0 < k < |texts| ==> Used(transitions, output, initialOut, k)
    {
      hide RowsOf, Flat, Scattered, RowsOk, RowOk, Texts, Used, IdRows, WordsOf, AllBelow;
      ghost var before := texts;
      var ids := Gather(transitions);
      var n := |ids|;
      RowsBelow(texts, transitions);
      var all := ids + output + [initialOut];
      SlotsBelow(ids, output, initialOut, |texts|);
      var renumbered;
      texts, renumbered := CompactTexts(texts, all);
      SlotsKept(before, texts, ids, output, initialOut, renumbered);
      ghost var rows := transitions;
      transitions := Scatter(transitions, renumbered[..n]);
      output := renumbered[n..n + |output|];
      initialOut := renumbered[n + |output|];
      RowsRenumbered(before, texts, rows, transitions, renumbered[..n]);
      NothingUnused(rows, transitions, renumbered, n, output, initialOut, |texts|);
    }

    method F(input: Word) returns (out: Word)
      requires Valid() && Runnable(Value(), alphabet) && Readable(input, alphabet)
      ensures forall v :: Translates(AsSsfst(Value(), alphabet), input, v) <==> v == out
      ensures out == Translate(Value(), alphabet, input)
    {
      hide Translates, AsSsfst, Rel;
      ghost var p := Value();
      out := texts[initialOut];
      var state: nat := 0;
      assert input[0..] == input;
      assert forall q :: 0 <= q < |transitions| ==> |p.rows[q]| == alphabet;
      for i := 0 to |input|
        invariant state < |transitions| && |transitions[state]| == alphabet && |p.rows[state]| == alphabet
        invariant Translate(p, alphabet, input) == out + Emit(p, alphabet, state, input[i..])
      {
        var t := transitions[state][input[i]];
        assert p.rows[state][input[i]] == (texts[t.outputId], t.next);
        assert input[i..][0] == input[i] && input[i..][1..] == input[i + 1..];
        Associate(out, texts[t.outputId], Emit(p, alphabet, t.next, input[i + 1..]));
        out, state := out + texts[t.outputId], t.next;
      }
      out := out + texts[output[state]];
      forall v ensures Translates(AsSsfst(p, alphabet), input, v) <==> v == out {
        TranslateIsRelation(p, alphabet, input, v);
      }
    }
  }

  lemma RowsSnoc(texts: seq<Word>, rows: seq<seq<Trans>>, row: seq<Trans>)
    requires RowsOk(texts, rows) && RowOk(texts, row)
    ensures RowsOk(texts, rows + [row]) && RowsOf(texts, rows + [row]) == RowsOf(texts, rows) + [RowOf(texts, row)]
  {
    var all := rows + [row];
    assert forall q :: 0 <= q < |rows| ==> all[q] == rows[q];
  }

  lemma MoreTexts(texts: seq<Word>, more: seq<Word>, rows: seq<seq<Trans>>, ids: seq<nat>)
    requires texts <= more && RowsOk(texts, rows) && AllBelow(ids, |texts|)
    ensures RowsOk(more, rows) && RowsOf(more, rows) == RowsOf(texts, rows)
    ensures AllBelow(ids, |more|) && WordsOf(more, ids) == WordsOf(texts, ids)
  {
    forall q | 0 <= q < |rows| ensures RowOf(more, rows[q]) == RowOf(texts, rows[q]) {
    }
  }

  // ---------- all slots in a row ----------

  function Flat(rows: seq<seq<nat>>): seq<nat> {
    if rows == [] then [] else Flat(rows[..|rows| - 1]) + rows[|rows| - 1]
  }

  lemma {:induction false} FlatAt(rows: seq<seq<nat>>, q: nat, l: nat)
    requires q < |rows| && l < |rows[q]|
    ensures |Flat(rows[..q])| + l < |Flat(rows)| && Flat(rows)[|Flat(rows[..q])| + l] == rows[q][l]
    decreases |rows|
  {
    if q < |rows| - 1 {
      assert rows[..|rows| - 1][..q] == rows[..q];
      FlatAt(rows[..|rows| - 1], q, l);
    }
  }

  function IdRow(row: seq<Trans>): seq<nat> {
    seq(|row|, l requires 0 <= l < |row| => row[l].outputId)
  }

  function IdRows(rows: seq<seq<Trans>>): seq<seq<nat>> {
    seq(|rows|, q requires 0 <= q < |rows| => IdRow(rows[q]))
  }

  /** Where the slots of row q begin. */
  function Offset(rows: seq<seq<nat>>, q: nat): nat
    requires q <= |rows|
  {
    |Flat(rows[..q])|
  }

  lemma OffsetNext(rows: seq<seq<nat>>, q: nat)
    requires q < |rows|
    ensures Offset(rows, q + 1) == Offset(rows, q) + |rows[q]| <= |Flat(rows)|
    ensures Flat(rows[..q + 1]) == Flat(rows[..q]) + rows[q]
  {
    assert rows[..q + 1][..q] == rows[..q];
    OffsetGrows(rows, q + 1);
  }

  lemma {:induction false} OffsetGrows(rows: seq<seq<nat>>, q: nat)
    requires q <= |rows|
    ensures Offset(rows, q) <= |Flat(rows)|
    decreases |rows|
  {
    if q < |rows| {
      assert rows[..|rows| - 1][..q] == rows[..q];
      OffsetGrows(rows[..|rows| - 1], q);
    } else {
      assert rows[..q] == rows;
    }
  }

  method Gather(rows: seq<seq<Trans>>) returns (ids: seq<nat>)
    ensures ids == Flat(IdRows(rows))
  {
    ids := [];
    ghost var all := IdRows(rows);
    for q := 0 to |rows|
      invariant ids == Flat(all[..q])
    {
      ghost var before := ids;
      for l := 0 to |rows[q]|
        invariant ids == before + all[q][..l]
      {
        assert all[q][..l + 1] == all[q][..l] + [all[q][l]];
        ids := ids + [rows[q][l].outputId];
      }
      assert all[q][..|rows[q]|] == all[q];
      OffsetNext(all, q);
    }
    assert all[..|rows|] == all;
  }

  /** The renumbered ids go back to their slots, in the same order. */
  ghost predicate Scattered(rows: seq<seq<Trans>>, ids: seq<nat>, rows': seq<seq<Trans>>, n: nat)
    requires |ids| == |Flat(IdRows(rows))| && n <= |rows|
  {
    && |rows'| == n
    && forall q: nat {:trigger rows'[q]} :: q < n ==> RowScattered(rows, ids, rows'[q], q)
  }

  ghost predicate RowScattered(rows: seq<seq<Trans>>, ids: seq<nat>, row': seq<Trans>, q: nat)
    requires |ids| == |Flat(IdRows(rows))| && q < |rows|
  {
    && |row'| == |rows[q]|
    && forall l: nat {:trigger row'[l]} :: l < |row'| ==>
      Offset(IdRows(rows), q) + l < |ids| && row'[l] == Trans(ids[Offset(IdRows(rows), q) + l], rows[q][l].next)
  }

  method Scatter(rows: seq<seq<Trans>>, ids: seq<nat>) returns (rows': seq<seq<Trans>>)
    requires |ids| == |Flat(IdRows(rows))|
    ensures Scattered(rows, ids, rows', |rows|)
  {
    rows' := [];
    var i: nat := 0;
    ghost var all := IdRows(rows);
    hide Flat;
    OffsetStart(all);
    for q := 0 to |rows|
      invariant Scattered(rows, ids, rows', q) && i == Offset(all, q)
    {
      OffsetNext(all, q);
      var row: seq<Trans> := [];
      for l := 0 to |rows[q]|
        invariant |row| == l && i == Offset(all, q) + l
        invariant forall k: nat {:trigger row[k]} :: k < l ==> Offset(all, q) + k < |ids| && row[k] == Trans(ids[Offset(all, q) + k], rows[q][k].next)
      {
        row := row + [Trans(ids[i], rows[q][l].next)];
        i := i + 1;
      }
      rows' := rows' + [row];
    }
  }

  lemma OffsetStart(rows: seq<seq<nat>>)
    ensures Offset(rows, 0) == 0
  {
  }

  /** A pool id that some slot of the transducer holds. */
  ghost predicate Used(rows: seq<seq<Trans>>, output: seq<nat>, initialOut: nat, k: nat) {
    k == initialOut || k in output || exists q, l :: 0 <= q < |rows| && 0 <= l < |rows[q]| && rows[q][l].outputId == k
  }

  /** The slot that a position belongs to. */
  lemma {:induction false} SlotAt(rows: seq<seq<nat>>, i: nat) returns (q: nat, l: nat)
    requires i < |Flat(rows)|
    ensures q < |rows| && l < |rows[q]| && i == Offset(rows, q) + l
    decreases |rows|
  {
    var front := rows[..|rows| - 1];
    if i < |Flat(front)| {
      q, l := SlotAt(front, i);
      assert rows[..q] == front[..q];
    } else {
      q, l := |rows| - 1, i - |Flat(front)|;
    }
  }

  /** After compaction every id but that of the empty word is in use. */
  lemma OnlyUsedKept(rows: seq<seq<Trans>>, rows': seq<seq<Trans>>, ids: seq<nat>, n: nat, k: nat)
    requires n == |Flat(IdRows(rows))| < |ids| && Scattered(rows, ids[..n], rows', |rows|) && k in ids
    ensures Used(rows', ids[n..|ids| - 1], ids[|ids| - 1], k)
  {
    hide Flat;
    var i :| 0 <= i < |ids| && ids[i] == k;
    if i < n {
      var q, l := SlotAt(IdRows(rows), i);
      assert RowScattered(rows, ids[..n], rows'[q], q);
      assert rows'[q][l] == Trans(ids[..n][i], rows[q][l].next);
    } else if i < |ids| - 1 {
      assert ids[n..|ids| - 1][i - n] == k;
    }
  }

  lemma NothingUnused(rows: seq<seq<Trans>>, rows': seq<seq<Trans>>, ids: seq<nat>, n: nat, output: seq<nat>, initialOut: nat, count: nat)
    requires n == |Flat(IdRows(rows))| < |ids| && Scattered(rows, ids[..n], rows', |rows|) && forall k :: 0 < k < count ==> k in ids
    requires output == ids[n..|ids| - 1] && initialOut == ids[|ids| - 1]
    ensures forall k: nat :: 0 < k < count ==> Used(rows', output, initialOut, k)
  {
    hide Flat, Scattered, Used;
    forall k: nat | 0 < k < count ensures Used(rows', output, initialOut, k) {
      OnlyUsedKept(rows, rows', ids, n, k);
    }
  }

  lemma RowsBelow(texts: seq<Word>, rows: seq<seq<Trans>>)
    requires RowsOk(texts, rows)
    ensures AllBelow(Flat(IdRows(rows)), |texts|)
    decreases |rows|
  {
    if rows != [] {
      var front := rows[..|rows| - 1];
      RowsBelow(texts, front);
      assert IdRows(rows)[..|rows| - 1] == IdRows(front);
    }
  }

  lemma SlotsBelow(ids: seq<nat>, output: seq<nat>, initialOut: nat, count: nat)
    requires AllBelow(ids, count) && AllBelow(output, count) && initialOut < count
    ensures AllBelow(ids + output + [initialOut], count)
  {
  }

  /** All slots in a row: those of the transitions, the final outputs, the initial output. */
  lemma SlotsKept(texts: seq<Word>, texts': seq<Word>, ids: seq<nat>, output: seq<nat>, initialOut: nat, news: seq<nat>)
    requires AllBelow(ids, |texts|) && AllBelow(output, |texts|) && initialOut < |texts| && |news| == |ids| + |output| + 1
    requires forall i {:trigger news[i]} :: 0 <= i < |news| ==> news[i] < |texts'| && texts'[news[i]] == texts[(ids + output + [initialOut])[i]]
    ensures AllBelow(news, |texts'|)
    ensures forall i :: 0 <= i < |ids| ==> news[..|ids|][i] < |texts'| && texts'[news[..|ids|][i]] == texts[ids[i]]
    ensures var o := news[|ids|..|ids| + |output|]; AllBelow(o, |texts'|) && WordsOf(texts', o) == WordsOf(texts, output)
    ensures texts'[news[|ids| + |output|]] == texts[initialOut]
  {
    var all := ids + output + [initialOut];
    assert forall i :: 0 <= i < |output| ==> all[|ids| + i] == output[i];
    assert all[|ids| + |output|] == initialOut;
  }

  lemma RowsRenumbered(texts: seq<Word>, texts': seq<Word>, rows: seq<seq<Trans>>, rows': seq<seq<Trans>>, ids: seq<nat>)
    requires RowsOk(texts, rows) && |ids| == |Flat(IdRows(rows))| && Scattered(rows, ids, rows', |rows|) && AllBelow(Flat(IdRows(rows)), |texts|)
    requires forall i {:trigger ids[i]} :: 0 <= i < |ids| ==> ids[i] < |texts'| && texts'[ids[i]] == texts[Flat(IdRows(rows))[i]]
    ensures RowsOk(texts', rows') && RowsOf(texts', rows') == RowsOf(texts, rows)
    ensures |rows'| == |rows| && forall q :: 0 <= q < |rows| ==> |rows'[q]| == |rows[q]|
  {
    hide Flat;
    forall q: nat, l: nat | q < |rows| && l < |rows[q]|
      ensures |rows'[q]| == |rows[q]| && rows'[q][l].outputId < |texts'| && rows'[q][l].next == rows[q][l].next
      ensures texts'[rows'[q][l].outputId] == texts[rows[q][l].outputId]
    {
      FlatAt(IdRows(rows), q, l);
      assert RowScattered(rows, ids, rows'[q], q);
      var t := rows'[q][l];
    }
    forall q: nat | q < |rows| ensures |rows'[q]| == |rows[q]| {
      assert RowScattered(rows, ids, rows'[q], q);
    }
    forall q: nat | q < |rows| ensures RowOk(texts', rows'[q]) && RowOf(texts', rows'[q]) == RowOf(texts, rows[q]) {
      forall l: nat | l < |rows'[q]| ensures rows'[q][l].outputId < |texts'| {
        var t := rows[q][l];
      }
    }
  }
}
