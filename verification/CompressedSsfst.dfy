/** The packed form: an output that ends in the letter read is stored without it, and a flag is kept in bit 31. */
module CompressedSsfst {
  import opened Words
  import opened Compaction
  import opened TotalSsfst
  import opened Subsequential

  const FLAG: nat := 0x8000_0000

  /** A handle is a 32-bit word: the top bit is the flag, the others are a pool id. */
  predicate IsCompressed(packed: nat) {
    packed / FLAG % 2 == 1
  }

  function CleanValue(packed: nat): nat {
    packed % FLAG
  }

  function PackValue(clean: nat, compressed: bool): (packed: nat)
    requires clean < FLAG
    ensures packed < 2 * FLAG && CleanValue(packed) == clean && IsCompressed(packed) == compressed
  {
    if compressed then clean + FLAG else clean
  }

  /** The top bit of a 32-bit word, compared as a number. */
  lemma TopBit(x: bv32)
    ensures x >= 0x8000_0000 <==> x as nat >= FLAG
    ensures x as nat < 2 * FLAG
  {
  }

  /** The bit test of the code is the flag of the model. */
  lemma FlagTest(x: bv32)
    ensures (x & 0x8000_0000 != 0) <==> IsCompressed(x as nat)
  {
    hide IsCompressed;
    assert (x & 0x8000_0000 != 0) <==> x >= 0x8000_0000;
    TopBit(x);
    FlagIsTop(x as nat);
  }

  lemma FlagIsTop(n: nat)
    requires n < 2 * FLAG
    ensures IsCompressed(n) <==> n >= FLAG
    ensures CleanValue(n) == if n >= FLAG then n - FLAG else n
  {
  }

  lemma SetBit(x: bv32)
    requires x < 0x8000_0000
    ensures (x | 0x8000_0000) as nat == x as nat + FLAG
  {
  }

  lemma ClearIsClean(x: bv32)
    ensures (x & 0x7FFF_FFFF) < 0x8000_0000
  {
  }

  lemma ClearThenSet(x: bv32)
    requires x >= 0x8000_0000
    ensures (x & 0x7FFF_FFFF) | 0x8000_0000 == x
  {
  }

  lemma ClearNothing(x: bv32)
    requires x < 0x8000_0000
    ensures x & 0x7FFF_FFFF == x
  {
  }

  lemma SameNat(x: bv32, y: bv32)
    requires x == y
    ensures x as nat == y as nat
  {
  }

  /** Setting the bit of a clean id is packing with the flag. */
  lemma FlagSet(x: bv32)
    requires x as nat < FLAG
    ensures (x | 0x8000_0000) as nat == PackValue(x as nat, true)
  {
    TopBit(x);
    SetBit(x);
  }

  /** What is left of x when y is x without its top bit. */
  lemma BelowTop(x: bv32, y: bv32)
    requires y < 0x8000_0000 && y | 0x8000_0000 == x
    ensures x as nat == y as nat + FLAG
  {
    SetBit(y);
    SameNat(y | 0x8000_0000, x);
  }

  lemma CleanOf(n: nat, m: nat)
    requires m < FLAG && (n == m || n == m + FLAG)
    ensures CleanValue(n) == m
  {
  }

  /** Clearing the bit gives the id of the model. */
  lemma FlagClear(x: bv32)
    ensures !(0x8000_0000 as bv32) == 0x7FFF_FFFF
    ensures (x & 0x7FFF_FFFF) as nat == CleanValue(x as nat)
  {
    hide CleanValue;
    ClearIsClean(x);
    TopBit(x & 0x7FFF_FFFF);
    if x >= 0x8000_0000 {
      ClearThenSet(x);
      BelowTop(x, x & 0x7FFF_FFFF);
    } else {
      ClearNothing(x);
      SameNat(x & 0x7FFF_FFFF, x);
    }
    CleanOf(x as nat, (x & 0x7FFF_FFFF) as nat);
  }

  datatype Packed = Packed(val: nat, next: nat)

  predicate EndsWithSymbol(w: Word, x: Symbol) {
    w != [] && w[|w| - 1] == x
  }

  /** The output of a transition on x. */
  function FullWord(texts: seq<Word>, t: Packed, x: Symbol): Word
    requires CleanValue(t.val) < |texts|
  {
    if IsCompressed(t.val) then texts[CleanValue(t.val)] + [x] else texts[CleanValue(t.val)]
  }

  /** A slot holds a pool id, and a word that ends in its letter is never stored with that letter. */
  predicate PackedOk(texts: seq<Word>, row: seq<Packed>) {
    forall l :: 0 <= l < |row| ==> SlotOk(texts, row[l], l)
  }

  predicate SlotOk(texts: seq<Word>, t: Packed, x: Symbol) {
    && CleanValue(t.val) < |texts|
    && (!IsCompressed(t.val) ==> var w := texts[CleanValue(t.val)]; w == [] || w[|w| - 1] != x)
  }

  /** The flag is set exactly on the outputs that end in their letter. */
  lemma FlagMeansTrailing(texts: seq<Word>, t: Packed, x: Symbol)
    requires SlotOk(texts, t, x)
    ensures IsCompressed(t.val) <==> exists front :: FullWord(texts, t, x) == front + [x]
  {
    var w := texts[CleanValue(t.val)];
    if IsCompressed(t.val) {
      assert FullWord(texts, t, x) == w + [x];
    } else if front :| FullWord(texts, t, x) == front + [x] {
      assert false;
    }
  }

  function FullRow(texts: seq<Word>, row: seq<Packed>): seq<(Word, nat)>
    requires PackedOk(texts, row)
  {
    seq(|row|, l requires 0 <= l < |row| => (FullWord(texts, row[l], l), row[l].next))
  }

  predicate AllPackedOk(texts: seq<Word>, rows: seq<seq<Packed>>) {
    forall q :: 0 <= q < |rows| ==> PackedOk(texts, rows[q])
  }

  function FullRows(texts: seq<Word>, rows: seq<seq<Packed>>): seq<seq<(Word, nat)>>
    requires AllPackedOk(texts, rows)
  {
    seq(|rows|, q requires 0 <= q < |rows| => FullRow(texts, rows[q]))
  }

  function NewPackedRow(alphabet: nat): seq<Packed> {
    seq(alphabet, l => Packed(0, 0))
  }

  /** The rows with the flags cleared. */
  function CleanRow(row: seq<Packed>): seq<Trans> {
    seq(|row|, l requires 0 <= l < |row| => Trans(CleanValue(row[l].val), row[l].next))
  }

  function CleanRows(rows: seq<seq<Packed>>): seq<seq<Trans>> {
    seq(|rows|, q requires 0 <= q < |rows| => CleanRow(rows[q]))
  }

  class CompressedTotalSSFST {
    const alphabet: nat
    var texts: seq<Word>
    var transitions: seq<seq<Packed>>
    var output: seq<nat>
    var initialOut: nat

    ghost predicate Valid()
      reads this
    {
      && Texts(texts) && |texts| <= FLAG
      && |output| == |transitions| && initialOut < |texts| && AllBelow(output, |texts|) && AllPackedOk(texts, transitions)
      && forall q :: 0 <= q < |transitions| ==> |transitions[q]| == alphabet
    }

    ghost function Value(): Plain
      reads this
      requires Valid()
    {
      Plain(FullRows(texts, transitions), WordsOf(texts, output), texts[initialOut])
    }

    constructor (alphabet: nat)
      ensures Valid() && Value() == Plain([], [], []) && this.alphabet == alphabet && |texts| == 1
    {
      this.alphabet := alphabet;
      texts, transitions, output, initialOut := [[]], [], [], 0;
      new;
      assert Value() == Plain([], [], []);
    }

    method NewState() returns (q: nat)
      requires Valid()
      modifies this
      ensures Valid() && q == |old(transitions)| && texts == old(texts)
      ensures Value() == old(Value()).(rows := old(Value()).rows + [BlankRow(alphabet)], psi := old(Value()).psi + [[]])
      ensures forall l :: 0 <= l < alphabet ==> Value().rows[q][l] == ([], 0)
    {
      ghost var was := Value();
      q := |transitions|;
      transitions := transitions + [NewPackedRow(alphabet)];
      output := output + [0];
      PackedSnoc(texts, old(transitions), NewPackedRow(alphabet));
      assert FullRow(texts, NewPackedRow(alphabet)) == BlankRow(alphabet);
      assert Value().psi == was.psi + [[]];
    }

    method Own(w: Word) returns (id: nat)
      requires Valid() && |texts| < FLAG
      modifies this`texts
      ensures Valid() && Value() == old(Value()) && id < |texts| && texts[id] == w && |texts| <= |old(texts)| + 1
      ensures old(texts) <= texts
    {
      ghost var was := Value();
      texts, id := Intern(texts, w);
      MorePacked(old(texts), texts, transitions, output);
      assert Value() == was;
    }

    /** `out` is the full output; if it ends in the letter, only the prefix before it is interned. */
    method AddTransition(from: nat, letter: nat, out: nat, to: nat)
      requires Valid() && |texts| < FLAG && from < |transitions| && letter < alphabet && out < |texts|
      modifies this
      ensures Valid() && |texts| <= |old(texts)| + 1 && |transitions| == |old(transitions)|
      ensures Value() == old(Value()).(rows := old(Value()).rows[from := old(Value()).rows[from][letter := (old(texts[out]), to)]])
    {
      var full := texts[out];
      var t;
      if EndsWithSymbol(full, letter) {
        var w := Own(full[..|full| - 1]);
        t := Packed(PackValue(w, true), to);
        assert full == full[..|full| - 1] + [letter];
      } else {
        t := Packed(PackValue(out, false), to);
      }
      ghost var was := Value();
      ghost var rows := transitions;
      transitions := transitions[from := transitions[from][letter := t]];
      assert FullWord(texts, t, letter) == full;
      assert FullRow(texts, transitions[from]) == was.rows[from][letter := (full, to)];
      assert Value().rows == was.rows[from := was.rows[from][letter := (full, to)]];
    }

    method SetInitialOutput(out: nat)
      requires Valid() && out < |texts|
      modifies this
      ensures Valid() && texts == old(texts) && Value() == old(Value()).(initialOut := texts[out])
    {
      initialOut := out;
    }

    method SetPsi(q: nat, out: nat)
      requires Valid() && q < |output| && out < |texts|
      modifies this
      ensures Valid() && texts == old(texts) && Value() == old(Value()).(psi := old(Value()).psi[q := texts[out]])
    {
      ghost var was := Value();
      output := output[q := out];
      assert Value().psi == was.psi[q := texts[out]];
    }

    /** The id of the full output, which is interned when it is first asked for. */
    method Transition(q: nat, letter: nat) returns (id: nat, next: nat)
      requires Valid() && |texts| < FLAG && q < |transitions| && letter < alphabet
      modifies this`texts
      ensures Valid() && Value() == old(Value()) && id < |texts| && (texts[id], next) == Value().rows[q][letter]
      ensures |texts| <= |old(texts)| + 1
    {
      var t := transitions[q][letter];
      id, next := CleanValue(t.val), t.next;
      ghost var was := Value();
      assert was.rows[q][letter] == (FullWord(texts, t, letter), next);
      if IsCompressed(t.val) {
        id := Own(texts[id] + [letter]);
      }
    }

    /** Clean ids are gathered, renumbered by the pool, and scattered back under their flags. */
    method CompactLabels()
      requires Valid()
      modifies this
      ensures Valid() && Value() == old(Value()) && |texts| <= |old(texts)| && |transitions| == |old(transitions)| && |output| == |old(output)|
      ensures forall k: nat :: 0 < k < |texts| ==> Used(CleanRows(transitions), output, initialOut, k)
    {
      hide FullRows, Used, Flat, Scattered, SameFlags, Texts, CleanValue, IsCompressed, CleanRow, WordsOf, AllBelow;
      ghost var before := texts;
      var cleanVals := GatherClean(transitions);
      var n := |cleanVals|;
      CleanOk(texts, transitions);
      RowsBelow(texts, CleanRows(transitions));
      var all := cleanVals + output + [initialOut];
      SlotsBelow(cleanVals, output, initialOut, |texts|);
      var renumbered;
      texts, renumbered := CompactTexts(texts, all);
      SlotsKept(before, texts, cleanVals, output, initialOut, renumbered);
      ghost var rows := transitions;
      FrontBelow(renumbered, n, |texts|);
      transitions := ScatterPacked(transitions, renumbered[..n]);
      output := renumbered[n..n + |output|];
      initialOut := renumbered[n + |output|];
      RowsRenumbered(before, texts, CleanRows(rows), CleanRows(transitions), renumbered[..n]);
      FullFromClean(before, texts, rows, transitions);
      NothingUnused(CleanRows(rows), CleanRows(transitions), renumbered, n, output, initialOut, |texts|);
    }

    /** The trailing letter of a compressed output is appended without asking the pool. */
    method F(input: Word) returns (out: Word)
      requires Valid() && Runnable(Value(), alphabet) && Readable(input, alphabet)
      ensures forall v :: Translates(AsSsfst(Value(), alphabet), input, v) <==> v == out
      ensures out == Translate(Value(), alphabet, input)
    {
      hide Translates, AsSsfst, Rel;
      ghost var p := Value();
      out := texts[initialOut];
      var state: nat := 0;
      assert input[0..] == input;
      assert forall q :: 0 <= q < |transitions| ==> |p.rows[q]| == alphabet;
      for i := 0 to |input|
        invariant state < |transitions| && |transitions[state]| == alphabet && |p.rows[state]| == alphabet
        invariant Translate(p, alphabet, input) == out + Emit(p, alphabet, state, input[i..])
      {
        var t := transitions[state][input[i]];
        var clean := CleanValue(t.val);
        assert p.rows[state][input[i]] == (FullWord(texts, t, input[i]), t.next);
        assert input[i..][0] == input[i] && input[i..][1..] == input[i + 1..];
        Associate(out, FullWord(texts, t, input[i]), Emit(p, alphabet, t.next, input[i + 1..]));
        ghost var before := out;
        out := out + texts[clean];
        if IsCompressed(t.val) {
          Associate(before, texts[clean], [input[i]]);
          out := out + [input[i]];
        }
        state := t.next;
      }
      out := out + texts[output[state]];
      forall v ensures Translates(AsSsfst(p, alphabet), input, v) <==> v == out {
        TranslateIsRelation(p, alphabet, input, v);
      }
    }
  }

  lemma PackedSnoc(texts: seq<Word>, rows: seq<seq<Packed>>, row: seq<Packed>)
    requires AllPackedOk(texts, rows) && PackedOk(texts, row)
    ensures AllPackedOk(texts, rows + [row]) && FullRows(texts, rows + [row]) == FullRows(texts, rows) + [FullRow(texts, row)]
  {
    var all := rows + [row];
    assert forall q :: 0 <= q < |rows| ==> all[q] == rows[q];
  }

  lemma MorePacked(texts: seq<Word>, more: seq<Word>, rows: seq<seq<Packed>>, ids: seq<nat>)
    requires texts <= more && AllPackedOk(texts, rows) && AllBelow(ids, |texts|)
    ensures AllPackedOk(more, rows) && FullRows(more, rows) == FullRows(texts, rows)
    ensures AllBelow(ids, |more|) && WordsOf(more, ids) == WordsOf(texts, ids)
  {
    hide IsCompressed, CleanValue;
    forall q | 0 <= q < |rows| ensures FullRow(more, rows[q]) == FullRow(texts, rows[q]) {
    }
  }

  lemma FrontBelow(ids: seq<nat>, n: nat, count: nat)
    requires AllBelow(ids, count) && n <= |ids| && count <= FLAG
    ensures AllBelow(ids[..n], FLAG)
  {
  }

  lemma CleanOk(texts: seq<Word>, rows: seq<seq<Packed>>)
    requires AllPackedOk(texts, rows)
    ensures RowsOk(texts, CleanRows(rows))
  {
    hide CleanValue;
  }

  method GatherClean(rows: seq<seq<Packed>>) returns (ids: seq<nat>)
    ensures ids == Flat(IdRows(CleanRows(rows)))
  {
    hide CleanValue;
    ids := [];
    ghost var all := IdRows(CleanRows(rows));
    for q := 0 to |rows|
      invariant ids == Flat(all[..q])
    {
      ghost var before := ids;
      for l := 0 to |rows[q]|
        invariant ids == before + all[q][..l]
      {
        assert all[q][..l + 1] == all[q][..l] + [all[q][l]];
        ids := ids + [CleanValue(rows[q][l].val)];
      }
      assert all[q][..|rows[q]|] == all[q];
      OffsetNext(all, q);
    }
    assert all[..|rows|] == all;
  }

  /** The same flags as before. */
  ghost predicate SameFlags(rows: seq<seq<Packed>>, rows': seq<seq<Packed>>, n: nat)
    requires n <= |rows|
  {
    && |rows'| == n
    && forall q: nat {:trigger rows'[q]} :: q < n ==> RowFlags(rows[q], rows'[q], |rows[q]|)
  }

  ghost predicate RowFlags(row: seq<Packed>, row': seq<Packed>, n: nat)
    requires n <= |row|
  {
    |row'| == n && forall l: nat {:trigger row'[l]} :: l < n ==> IsCompressed(row'[l].val) == IsCompressed(row[l].val)
  }

  /** The ids from one position on go into one row. */
  method PackRow(row: seq<Packed>, ids: seq<nat>, from: nat) returns (row': seq<Packed>)
    requires from + |row| <= |ids| && AllBelow(ids, FLAG)
    ensures RowFlags(row, row', |row|)
    ensures forall l: nat {:trigger row'[l]} :: l < |row| ==> CleanValue(row'[l].val) == ids[from + l] && row'[l].next == row[l].next
  {
    hide CleanValue, IsCompressed;
    row' := [];
    for l := 0 to |row|
      invariant RowFlags(row, row', l)
      invariant forall k: nat {:trigger row'[k]} :: k < l ==> CleanValue(row'[k].val) == ids[from + k] && row'[k].next == row[k].next
    {
      var t := row[l];
      row' := row' + [Packed(PackValue(ids[from + l], IsCompressed(t.val)), t.next)];
    }
  }

  method ScatterPacked(rows: seq<seq<Packed>>, ids: seq<nat>) returns (rows': seq<seq<Packed>>)
    requires |ids| == |Flat(IdRows(CleanRows(rows)))| && AllBelow(ids, FLAG)
    ensures Scattered(CleanRows(rows), ids, CleanRows(rows'), |rows|) && SameFlags(rows, rows', |rows|)
  {
    hide Flat, CleanValue, IsCompressed, Scattered, SameFlags, RowFlags;
    rows' := [];
    var i: nat := 0;
    ghost var clean := CleanRows(rows);
    ghost var all := IdRows(clean);
    OffsetStart(all);
    NothingScattered(rows, ids);
    for q := 0 to |rows|
      invariant i == Offset(all, q) && SameFlags(rows, rows', q)
      invariant Scattered(clean, ids, CleanRows(rows'), q)
    {
      OffsetNext(all, q);
      var row := PackRow(rows[q], ids, i);
      PackedScattered(clean, ids, rows[q], row, q, i);
      ScatteredMore(clean, ids, rows', row, q);
      FlagsMore(rows, rows', row, q);
      rows' := rows' + [row];
      i := i + |rows[q]|;
    }
  }

  lemma PackedScattered(clean: seq<seq<Trans>>, ids: seq<nat>, row: seq<Packed>, row': seq<Packed>, q: nat, from: nat)
    requires |ids| == |Flat(IdRows(clean))| && q < |clean| && clean[q] == CleanRow(row) && from == Offset(IdRows(clean), q)
    requires from + |row| <= |ids| && RowFlags(row, row', |row|)
    requires forall l: nat {:trigger row'[l]} :: l < |row| ==> CleanValue(row'[l].val) == ids[from + l] && row'[l].next == row[l].next
    ensures RowScattered(clean, ids, CleanRow(row'), q)
  {
    hide Flat, CleanValue, IsCompressed;
  }

  lemma NothingScattered(rows: seq<seq<Packed>>, ids: seq<nat>)
    requires |ids| == |Flat(IdRows(CleanRows(rows)))|
    ensures Scattered(CleanRows(rows), ids, CleanRows([]), 0) && SameFlags(rows, [], 0)
  {
    hide Flat;
  }

  lemma FlagsMore(rows: seq<seq<Packed>>, rows': seq<seq<Packed>>, row: seq<Packed>, q: nat)
    requires q < |rows| && SameFlags(rows, rows', q) && RowFlags(rows[q], row, |rows[q]|)
    ensures SameFlags(rows, rows' + [row], q + 1)
  {
    hide RowFlags;
    var more := rows' + [row];
    forall p: nat | p < q + 1 ensures RowFlags(rows[p], more[p], |rows[p]|) {
      if p < q {
        assert more[p] == rows'[p];
      }
    }
  }

  lemma ScatteredMore(clean: seq<seq<Trans>>, ids: seq<nat>, rows: seq<seq<Packed>>, row: seq<Packed>, q: nat)
    requires |ids| == |Flat(IdRows(clean))| && q < |clean|
    requires Scattered(clean, ids, CleanRows(rows), q) && RowScattered(clean, ids, CleanRow(row), q)
    ensures Scattered(clean, ids, CleanRows(rows + [row]), q + 1)
  {
    hide Flat, RowScattered, CleanRow;
    var more := CleanRows(rows + [row]);
    assert forall p :: 0 <= p < |rows| ==> (rows + [row])[p] == rows[p];
    forall p: nat | p < q + 1 ensures RowScattered(clean, ids, more[p], p) {
      if p < q {
        assert more[p] == CleanRows(rows)[p];
      } else {
        assert more[p] == CleanRow(row);
      }
    }
  }

  /** With the same flags, the same clean words make the same full words. */
  lemma FullFromClean(texts: seq<Word>, texts': seq<Word>, rows: seq<seq<Packed>>, rows': seq<seq<Packed>>)
    requires AllPackedOk(texts, rows) && SameFlags(rows, rows', |rows|)
    requires RowsOk(texts, CleanRows(rows)) && RowsOk(texts', CleanRows(rows'))
    requires RowsOf(texts', CleanRows(rows')) == RowsOf(texts, CleanRows(rows))
    ensures AllPackedOk(texts', rows') && FullRows(texts', rows') == FullRows(texts, rows)
    ensures forall q :: 0 <= q < |rows| ==> |rows'[q]| == |rows[q]|
  {
    hide IsCompressed, CleanValue;
    forall q: nat | q < |rows| ensures |rows'[q]| == |rows[q]| && PackedOk(texts', rows'[q]) && FullRow(texts', rows'[q]) == FullRow(texts, rows[q]) {
      assert RowFlags(rows[q], rows'[q], |rows[q]|);
      assert RowsOf(texts', CleanRows(rows'))[q] == RowsOf(texts, CleanRows(rows))[q];
      SameFullRow(texts, texts', rows[q], rows'[q]);
    }
  }

  lemma SameFullRow(texts: seq<Word>, texts': seq<Word>, row: seq<Packed>, row': seq<Packed>)
    requires PackedOk(texts, row) && RowFlags(row, row', |row|) && RowOk(texts, CleanRow(row)) && RowOk(texts', CleanRow(row'))
    requires RowOf(texts', CleanRow(row')) == RowOf(texts, CleanRow(row))
    ensures PackedOk(texts', row') && FullRow(texts', row') == FullRow(texts, row)
  {
    hide IsCompressed, CleanValue;
    forall l: nat | l < |row| ensures CleanValue(row'[l].val) < |texts'| && FullWord(texts', row'[l], l) == FullWord(texts, row[l], l) && row'[l].next == row[l].next {
      assert RowOf(texts', CleanRow(row'))[l] == RowOf(texts, CleanRow(row))[l];
      assert CleanRow(row')[l].outputId < |texts'|;
    }
  }
}
