/** The string pool: interning, scratch operands, compaction and reading back. */
module InterningMonoid {
  import opened Words
  import opened Compaction
  import opened Pool

  class InterningMonoid {
    var words: Word
    var wordsData: seq<Slice>
    var temporaries: Word
    var temporaryCount: nat
    var wordMap: map<Word, nat>
    var nextWordId: nat
    // the operands alive now, with multiplicity
    ghost var temps: multiset<Operand>
    ghost var plains: multiset<Operand>

    ghost function Value(): State
      reads this
    {
      State(words, wordsData, temporaries, temps, plains)
    }

    ghost predicate Valid()
      reads this
    {
      && Ok(Value())
      && nextWordId == |wordsData|
      && temporaryCount == |temps|
      && Indexed(words, wordsData, wordMap)
    }

    constructor ()
      ensures Valid() && Value() == Fresh()
    {
      hide Ok, Indexed;
      words, wordsData, temporaries, temporaryCount := [], [Slice(0, 0)], [], 0;
      wordMap, nextWordId := map[[] := 0], 1;
      temps, plains := multiset{}, multiset{};
      new;
      FreshOk();
      FreshIndexed(words, wordsData, wordMap);
    }

    /** The word that an operand stands for. */
    method Get(op: Operand) returns (word: Word)
      requires Valid() && Live(Value(), op)
      ensures word == OperandWord(Value(), op) && |word| == op.slice.length
    {
      word := if op.fromTemporaries then temporaries[op.slice.start..op.slice.End()] else words[op.slice.start..op.slice.End()];
    }

    // ---------- interning ----------

    /** The id of the word, which is new, or the one it has. */
    method AddUnique(word: Word) returns (id: nat)
      requires Valid()
      modifies this
      ensures Valid() && Value() == Interned(old(Value()), word)
      ensures id < |wordsData| && WordOf(Value(), id) == word
    {
      hide Ok;
      InternedOk(Value(), word);
      IndexedKnown(Value(), wordMap, word);
      if word in wordMap {
        return wordMap[word];
      }
      IndexedNew(Value(), wordMap, word);
      wordsData := wordsData + [Slice(|words|, |word|)];
      words := words + word;
      id := nextWordId;
      nextWordId := nextWordId + 1;
      wordMap := wordMap[word := id];
    }

    /** The id of a slice of the buffer: no bytes are copied. */
    method AddUniqueInfix(start: nat, length: nat) returns (id: nat)
      requires Valid() && start + length <= |words|
      modifies this
      ensures Valid() && Value() == SliceInterned(old(Value()), Slice(start, length)) && words == old(words)
      ensures id < |wordsData| && WordOf(Value(), id) == Text(old(words), Slice(start, length))
    {
      hide Ok;
      var word := words[start..start + length];
      var slice := Slice(start, length);
      assert word == Text(words, slice);
      SliceInternedOk(Value(), slice);
      IndexedKnown(Value(), wordMap, word);
      if word in wordMap {
        return wordMap[word];
      }
      IndexedSlice(Value(), wordMap, slice);
      wordsData := wordsData + [slice];
      id := nextWordId;
      nextWordId := nextWordId + 1;
      wordMap := wordMap[word := id];
    }

    method From(word: Word) returns (id: nat)
      requires Valid()
      modifies this
      ensures Valid() && Value() == Interned(old(Value()), word)
      ensures id < |wordsData| && WordOf(Value(), id) == word
    {
      id := AddUnique(word);
    }

    /** The conversion of an operand to an id. */
    method ToId(op: Operand) returns (id: nat)
      requires Valid() && Live(Value(), op)
      modifies this
      ensures Valid() && id < |wordsData| && WordOf(Value(), id) == old(OperandWord(Value(), op))
      ensures Value() == if op.fromTemporaries then Interned(old(Value()), old(OperandWord(Value(), op))) else SliceInterned(old(Value()), op.slice)
    {
      if op.fromTemporaries {
        var word := Get(op);
        id := AddUnique(word);
      } else {
        id := AddUniqueInfix(op.slice.start, op.slice.length);
      }
    }

    // ---------- operands: creation, copy, assignment, death ----------

    method CreateTemporary(op: Operand)
      requires Valid() && CanView(Value(), op)
      modifies this`temporaryCount, this`temps, this`plains
      ensures Valid() && Value() == Added(old(Value()), op) && Live(Value(), op)
      ensures temporaryCount == old(temporaryCount) + if op.fromTemporaries then 1 else 0
    {
      AddedOk(Value(), op);
      OneMore(temps, op);
      hide Ok;
      if op.fromTemporaries {
        temporaryCount := temporaryCount + 1;
        temps := temps + multiset{op};
      } else {
        plains := plains + multiset{op};
      }
    }

    method Copy(op: Operand)
      requires Valid() && Live(Value(), op)
      modifies this`temporaryCount, this`temps, this`plains
      ensures Valid() && Value() == Added(old(Value()), op)
      ensures temporaryCount == old(temporaryCount) + if op.fromTemporaries then 1 else 0
    {
      LiveCanView(Value(), op);
      CreateTemporary(op);
    }

    method Destroy(op: Operand)
      requires Valid() && Live(Value(), op)
      modifies this`temporaries, this`temporaryCount, this`temps, this`plains
      ensures Valid() && Value() == Killed(old(Value()), op)
      ensures temporaryCount == old(temporaryCount) - if op.fromTemporaries then 1 else 0
    {
      hide Ok, Indexed, Killed;
      ghost var after := Killed(Value(), op);
      KilledOk(Value(), op);
      KilledFields(Value(), op);
      temps, plains := after.temps, after.plains;
      if op.fromTemporaries {
        temporaryCount := temporaryCount - 1;
        if temporaryCount == 0 {
          temporaries := [];
        }
      }
    }

    /** Assigning rhs to a different operand object, which held op. */
    method Assign(op: Operand, rhs: Operand)
      requires Valid() && CanAssign(Value(), op, rhs)
      modifies this`temporaries, this`temporaryCount, this`temps, this`plains
      ensures Valid() && Value() == Assigned(old(Value()), op, rhs)
      ensures Live(Value(), rhs) && OperandWord(Value(), rhs) == old(OperandWord(Value(), rhs))
    {
      StillLive(Value(), op, rhs);
      AssignedOk(Value(), op, rhs);
      hide Ok;
      Destroy(op);
      CreateTemporary(rhs);
    }

    /** Assigning an id to an operand object, which held op. */
    method AssignId(op: Operand, id: nat) returns (rhs: Operand)
      requires Valid() && Live(Value(), op) && id < |wordsData|
      modifies this`temporaries, this`temporaryCount, this`temps, this`plains
      ensures Valid() && rhs == Operand(wordsData[id], false) && Value() == Added(Killed(old(Value()), op), rhs)
      ensures Live(Value(), rhs) && OperandWord(Value(), rhs) == old(WordOf(Value(), id))
    {
      rhs := Operand(wordsData[id], false);
      KilledOk(Value(), op);
      IdInBounds(Value(), id);
      Destroy(op);
      CreateTemporary(rhs);
    }

    // ---------- operations of the free monoid ----------

    /** An id seen as an operand. */
    method Widen(id: nat) returns (op: Operand)
      requires Valid() && id < |wordsData|
      modifies this`temporaryCount, this`temps, this`plains
      ensures Valid() && op == Operand(wordsData[id], false) && Value() == Added(old(Value()), op)
      ensures Live(Value(), op) && OperandWord(Value(), op) == WordOf(Value(), id)
    {
      op := Operand(wordsData[id], false);
      IdInBounds(Value(), id);
      CreateTemporary(op);
    }

    /** A.B, built at the end of the scratch buffer. */
    method Mul(a: Operand, b: Operand) returns (op: Operand)
      requires Valid() && Live(Value(), a) && Live(Value(), b)
      modifies this`temporaries, this`temporaryCount, this`temps
      ensures Valid() && Value() == ScratchAdded(old(Value()), old(OperandWord(Value(), a)) + old(OperandWord(Value(), b)))
      ensures Live(Value(), op) && OperandWord(Value(), op) == old(OperandWord(Value(), a)) + old(OperandWord(Value(), b))
      ensures op.fromTemporaries && temporaryCount == old(temporaryCount) + 1
    {
      hide Ok;
      var start := |temporaries|;
      var left := Get(a);
      var right := Get(b);
      op := Operand(Slice(start, a.slice.length + b.slice.length), true);
      ScratchAddedOk(Value(), left + right);
      OneMore(temps, op);
      assert temporaries + (left + right) == temporaries + left + right;
      temporaries := temporaries + left;
      temporaries := temporaries + right;
      temporaryCount := temporaryCount + 1;
      temps := temps + multiset{op};
    }

    /** A^-1.B, a slice of B: the caller promises that A is a prefix of B. */
    method InvMulOperands(a: Operand, b: Operand) returns (op: Operand)
      requires Valid() && Live(Value(), a) && Live(Value(), b) && OperandWord(Value(), a) <= OperandWord(Value(), b)
      modifies this`temporaryCount, this`temps, this`plains
      ensures Valid() && Value() == Added(old(Value()), op) && Live(Value(), op)
      ensures OperandWord(Value(), op) == InvMul(old(OperandWord(Value(), a)), old(OperandWord(Value(), b)))
    {
      op := Operand(Slice(b.slice.start + a.slice.length, b.slice.length - a.slice.length), b.fromTemporaries);
      OperandLength(Value(), a);
      OperandLength(Value(), b);
      hide Ok, OperandWord;
      PartOfOperand(Value(), b, op, a.slice.length);
      CreateTemporary(op);
    }

    method Sub(a: Operand, start: nat, length: nat) returns (op: Operand)
      requires Valid() && Live(Value(), a) && start + length <= a.slice.length
      modifies this`temporaryCount, this`temps, this`plains
      ensures Valid() && Value() == Added(old(Value()), op) && Live(Value(), op)
      ensures OperandWord(Value(), op) == old(OperandWord(Value(), a))[start..start + length]
    {
      op := Operand(Slice(a.slice.start + start, length), a.fromTemporaries);
      hide Ok, OperandWord;
      PartOfOperand(Value(), a, op, start);
      CreateTemporary(op);
    }

    method GcpOperands(a: Operand, b: Operand) returns (op: Operand)
      requires Valid() && Live(Value(), a) && Live(Value(), b)
      modifies this`temporaryCount, this`temps, this`plains
      ensures Valid() && Value() == Added(old(Value()), op) && Live(Value(), op)
      ensures OperandWord(Value(), op) == Gcp(old(OperandWord(Value(), a)), old(OperandWord(Value(), b)))
    {
      hide Ok;
      var left := Get(a);
      var right := Get(b);
      var len := GcpLen(left, right);
      hide OperandWord;
      op := Sub(a, 0, len);
    }

    /** A copy of a word of another pool in the scratch buffer. */
    method Own(word: Word) returns (op: Operand)
      requires Valid()
      modifies this`temporaries, this`temporaryCount, this`temps
      ensures Valid() && Value() == ScratchAdded(old(Value()), word) && Live(Value(), op) && OperandWord(Value(), op) == word
      ensures op.fromTemporaries && temporaryCount == old(temporaryCount) + 1
    {
      op := Operand(Slice(|temporaries|, |word|), true);
      ScratchAddedOk(Value(), word);
      OneMore(temps, op);
      hide Ok;
      temporaries := temporaries + word;
      temporaryCount := temporaryCount + 1;
      temps := temps + multiset{op};
    }

    /** The length of the longest word. */
    method C() returns (longest: nat)
      requires Valid()
      ensures forall id: nat :: id < |wordsData| ==> |WordOf(Value(), id)| <= longest
      ensures exists id: nat :: id < |wordsData| && |WordOf(Value(), id)| == longest
    {
      longest := 0;
      ghost var at: nat := 0;
      for i := 0 to |wordsData|
        invariant forall j :: 0 <= j < i ==> wordsData[j].length <= longest
        invariant at < |wordsData| && wordsData[at].length == longest
      {
        if longest < wordsData[i].length {
          longest, at := wordsData[i].length, i;
        }
      }
      assert |WordOf(Value(), at)| == longest;
    }

    // ---------- compaction ----------

    /**
     * Drops the words without handles, renumbers the others, and writes the new ids back into all ranges of handles.
     * The bytes move, so no operand into the buffer outlives this; operands into the scratch buffer do.
     */
    method Compact(ranges: seq<array<nat>>) returns (ghost liveIds: seq<nat>)
      requires Valid() && Apart(ranges) && AllBelow(Joined(Contents(ranges)), |wordsData|)
      modifies this, ranges
      ensures Valid() && temporaries == old(temporaries) && temps == old(temps) && plains == multiset{}
      ensures forall r :: 0 <= r < |ranges| ==> |ranges[r][..]| == |old(ranges[r][..])|
      ensures Compacted(old(words), old(wordsData), old(Joined(Contents(ranges))), words, wordsData, Joined(Contents(ranges)), liveIds)
    {
      hide Ok, PoolOk, Indexed, Compacted, Text, Joined, NewIds, Renumbers;
      PoolOfOk(Value());
      ghost var before := Value();
      var handles := Gather(ranges);
      var oldToNew;
      words, wordsData, oldToNew, liveIds := Rebuild(words, wordsData, handles);
      NewIdsAre(oldToNew, handles, old(wordsData));
      CompactedOk(old(words), old(wordsData), handles, words, wordsData, NewIds(oldToNew, handles), liveIds);
      OperandsKept(before, words, wordsData);
      plains, nextWordId := multiset{}, |wordsData|;
      wordMap := RebuildMap(words, wordsData);
      assert Valid();
      Scatter(ranges, oldToNew);
    }

    // ---------- reading back ----------

    /**
     * Reads a pool that was written as the number of ids, their slices, and the buffer. The buffer's length is
     * recovered from the slices; whatever follows it in the stream is left alone.
     */
    constructor Restore(count: nat, slices: seq<Slice>, stream: Word, ghost written: State)
      requires Ok(written) && count == |slices| && slices == written.data
      requires written.words <= stream
      ensures Valid() && Value() == written.(scratch := [], temps := multiset{}, plains := multiset{})
    {
      hide Ok, PoolOk, Indexed;
      PoolOfOk(written);
      var totalLength := 0;
      for i := 0 to |slices|
        invariant forall j :: 0 <= j < i ==> slices[j].End() <= totalLength
        invariant totalLength == 0 || exists j :: 0 <= j < i && slices[j].End() == totalLength
      {
        if totalLength < slices[i].End() {
          totalLength := slices[i].End();
        }
      }
      BufferLength(written, totalLength);
      assert stream[..totalLength] == written.words;
      var map0 := RebuildMap(stream[..totalLength], slices);
      words, wordsData, temporaries, temporaryCount := stream[..totalLength], slices, [], 0;
      wordMap, nextWordId := map0, count;
      temps, plains := multiset{}, multiset{};
      new;
      NoOperandsOk(Value());
    }
  }

  // ---------- ranges of handles ----------

  /** No two ranges are the same storage. */
  predicate Apart(ranges: seq<array<nat>>) {
    forall i, j :: 0 <= i < j < |ranges| ==> ranges[i] != ranges[j]
  }

  function Contents(ranges: seq<array<nat>>): (rows: seq<seq<nat>>)
    reads ranges
    ensures |rows| == |ranges| && forall r {:trigger ranges[r]} {:trigger rows[r]} :: 0 <= r < |ranges| ==> rows[r] == ranges[r][..]
  {
    seq(|ranges|, r requires 0 <= r < |ranges| reads ranges => ranges[r][..])
  }

  function Joined(rows: seq<seq<nat>>): seq<nat> {
    if rows == [] then [] else Joined(rows[..|rows| - 1]) + rows[|rows| - 1]
  }

  lemma JoinedSnoc(rows: seq<seq<nat>>, row: seq<nat>)
    ensures Joined(rows + [row]) == Joined(rows) + row
  {
    assert (rows + [row])[..|rows|] == rows;
  }

  method Gather(ranges: seq<array<nat>>) returns (handles: seq<nat>)
    ensures handles == Joined(Contents(ranges))
  {
    handles := [];
    ghost var rows := Contents(ranges);
    for r := 0 to |ranges|
      invariant rows == Contents(ranges) && handles == Joined(rows[..r])
    {
      JoinedSnoc(rows[..r], rows[r]);
      assert rows[..r] + [rows[r]] == rows[..r + 1];
      assert rows[r] == ranges[r][..];
      handles := handles + ranges[r][..];
    }
    assert rows[..|ranges|] == rows;
  }

  predicate Renumbers(oldToNew: seq<Option<nat>>, ids: seq<nat>) {
    forall i {:trigger ids[i]} :: 0 <= i < |ids| ==> ids[i] < |oldToNew| && oldToNew[ids[i]].Some?
  }

  function NewIds(oldToNew: seq<Option<nat>>, ids: seq<nat>): (news: seq<nat>)
    requires Renumbers(oldToNew, ids)
    ensures |news| == |ids|
  {
    seq(|ids|, i requires 0 <= i < |ids| => oldToNew[ids[i]].value)
  }

  lemma NewIdsAre(oldToNew: seq<Option<nat>>, ids: seq<nat>, data: seq<Slice>)
    requires |oldToNew| == |data| && AllBelow(ids, |data|) && forall i :: 0 <= i < |ids| ==> oldToNew[ids[i]].Some?
    ensures Renumbers(oldToNew, ids)
    ensures NewIds(oldToNew, ids) == seq(|ids|, i requires 0 <= i < |ids| => oldToNew[ids[i]].value)
  {
  }

  lemma {:induction false} PartsRenumber(oldToNew: seq<Option<nat>>, rows: seq<seq<nat>>)
    requires Renumbers(oldToNew, Joined(rows))
    ensures forall r {:trigger rows[r]} :: 0 <= r < |rows| ==> Renumbers(oldToNew, rows[r])
    decreases |rows|
  {
    if rows != [] {
      var front, last := rows[..|rows| - 1], rows[|rows| - 1];
      assert forall i :: 0 <= i < |Joined(front)| ==> Joined(front)[i] == Joined(rows)[i];
      assert forall i :: 0 <= i < |last| ==> last[i] == Joined(rows)[|Joined(front)| + i];
      PartsRenumber(oldToNew, front);
      assert forall r :: 0 <= r < |front| ==> rows[r] == front[r];
    }
  }

  /** Renumbering range by range is renumbering all handles in a row. */
  lemma {:induction false} JoinedNewIds(oldToNew: seq<Option<nat>>, rows: seq<seq<nat>>, news: seq<seq<nat>>)
    requires |news| == |rows| && Renumbers(oldToNew, Joined(rows))
    requires forall r {:trigger rows[r]} {:trigger news[r]} :: 0 <= r < |rows| ==> Renumbers(oldToNew, rows[r]) && news[r] == NewIds(oldToNew, rows[r])
    ensures Joined(news) == NewIds(oldToNew, Joined(rows))
    decreases |rows|
  {
    if rows != [] {
      var front, last := rows[..|rows| - 1], rows[|rows| - 1];
      assert forall i :: 0 <= i < |Joined(front)| ==> Joined(front)[i] == Joined(rows)[i];
      assert rows[|rows| - 1] == last && news[|rows| - 1] == NewIds(oldToNew, last);
      forall r | 0 <= r < |front| ensures Renumbers(oldToNew, front[r]) && news[..|rows| - 1][r] == NewIds(oldToNew, front[r]) {
        assert news[r] == news[..|rows| - 1][r] && front[r] == rows[r];
      }
      assert Joined(rows) == Joined(front) + last;
      forall i | 0 <= i < |last| ensures last[i] < |oldToNew| && oldToNew[last[i]].Some? {
        assert last[i] == Joined(rows)[|Joined(front)| + i];
      }
      JoinedNewIds(oldToNew, front, news[..|rows| - 1]);
      assert Joined(news) == NewIds(oldToNew, Joined(front)) + NewIds(oldToNew, last);
    }
  }

  method WriteBack(range: array<nat>, oldToNew: seq<Option<nat>>)
    requires Renumbers(oldToNew, range[..])
    modifies range
    ensures range[..] == NewIds(oldToNew, old(range[..]))
  {
    ghost var was := range[..];
    for i := 0 to range.Length
      invariant forall j :: 0 <= j < i ==> range[j] == oldToNew[was[j]].value
      invariant forall j :: i <= j < range.Length ==> range[j] == was[j]
    {
      assert was[i] < |oldToNew|;
      range[i] := oldToNew[range[i]].value;
    }
  }

  /** The new ids, written into all ranges. */
  method Scatter(ranges: seq<array<nat>>, oldToNew: seq<Option<nat>>)
    requires Apart(ranges) && Renumbers(oldToNew, Joined(Contents(ranges)))
    modifies ranges
    ensures Joined(Contents(ranges)) == NewIds(oldToNew, old(Joined(Contents(ranges))))
    ensures forall r :: 0 <= r < |ranges| ==> |ranges[r][..]| == |old(ranges[r][..])|
  {
    hide NewIds, Joined;
    ghost var was := Contents(ranges);
    PartsRenumber(oldToNew, was);
    for r := 0 to |ranges|
      invariant forall j {:trigger ranges[j]} :: 0 <= j < r ==> ranges[j][..] == NewIds(oldToNew, was[j])
      invariant forall j {:trigger ranges[j]} :: r <= j < |ranges| ==> ranges[j][..] == was[j]
    {
      WriteBack(ranges[r], oldToNew);
    }
    JoinedNewIds(oldToNew, was, Contents(ranges));
  }

  // ---------- the content-to-id table ----------

  ghost predicate Indexed(words: Word, data: seq<Slice>, wordMap: map<Word, nat>) {
    && InBounds(words, data)
    && (forall id {:trigger data[id]} :: 0 <= id < |data| ==> Text(words, data[id]) in wordMap && wordMap[Text(words, data[id])] == id)
    && (forall w {:trigger w in wordMap} :: w in wordMap ==> wordMap[w] < |data| && Text(words, data[wordMap[w]]) == w)
  }

  lemma FreshText(words: Word, data: seq<Slice>)
    requires |words| == 0 && |data| == 1 && data[0] == Slice(0, 0)
    ensures InBounds(words, data) && Text(words, data[0]) == words
  {
    hide InBounds;
    OneInBounds(words, data);
  }

  lemma FreshIndexed(words: Word, data: seq<Slice>, wordMap: map<Word, nat>)
    requires |words| == 0 && |data| == 1 && data[0] == Slice(0, 0) && wordMap.Keys == {words} && wordMap[words] == 0
    ensures Indexed(words, data, wordMap)
  {
    hide Text, InBounds;
    FreshText(words, data);
  }

  lemma IndexedKnown(s: State, wordMap: map<Word, nat>, w: Word)
    requires Ok(s) && Indexed(s.words, s.data, wordMap)
    ensures w in wordMap <==> Known(s, w)
    ensures w in wordMap ==> wordMap[w] < |s.data| && WordOf(s, wordMap[w]) == w
  {
    if Known(s, w) {
      var id: nat :| id < |s.data| && WordOf(s, id) == w;
      var slice := s.data[id];
    }
    if w in wordMap {
      assert WordOf(s, wordMap[w]) == w;
    }
  }

  lemma IndexedNew(s: State, wordMap: map<Word, nat>, w: Word)
    requires Ok(s) && Indexed(s.words, s.data, wordMap) && !Known(s, w)
    ensures var s' := Interned(s, w); Indexed(s'.words, s'.data, wordMap[w := |s.data|]) && Ok(s') && WordOf(s', |s.data|) == w
  {
    InternedOk(s, w);
    var s' := Interned(s, w);
    assert Text(s'.words, Slice(|s.words|, |w|)) == w;
    hide Text;
    forall id | 0 <= id < |s.data| ensures Text(s'.words, s'.data[id]) == Text(s.words, s.data[id]) {
      TextKept(s.words, w, s.data[id]);
    }
    IndexedKnown(s, wordMap, w);
  }

  lemma IndexedSlice(s: State, wordMap: map<Word, nat>, slice: Slice)
    requires Ok(s) && slice.End() <= |s.words| && Indexed(s.words, s.data, wordMap) && !Known(s, Text(s.words, slice))
    ensures
      var s' := SliceInterned(s, slice);
      Indexed(s'.words, s'.data, wordMap[Text(s.words, slice) := |s.data|]) && Ok(s') && WordOf(s', |s.data|) == Text(s.words, slice)
  {
    SliceInternedOk(s, slice);
    IndexedKnown(s, wordMap, Text(s.words, slice));
    hide Text, PoolOk;
  }

  /** The table is filled in ascending order; no word is entered twice. */
  method RebuildMap(words: Word, data: seq<Slice>) returns (wordMap: map<Word, nat>)
    requires PoolOk(words, data)
    ensures Indexed(words, data, wordMap)
  {
    wordMap := map[];
    for id := 0 to |data|
      invariant forall i {:trigger data[i]} :: 0 <= i < id ==> Text(words, data[i]) in wordMap && wordMap[Text(words, data[i])] == i
      invariant forall w {:trigger w in wordMap} :: w in wordMap ==> wordMap[w] < id && Text(words, data[wordMap[w]]) == w
    {
      var w := Text(words, data[id]);
      if w !in wordMap {
        wordMap := wordMap[w := id];
      }
    }
  }

  lemma CompactedOk(words: Word, data: seq<Slice>, handles: seq<nat>, words': Word, data': seq<Slice>, handles': seq<nat>, liveIds: seq<nat>)
    requires Compacted(words, data, handles, words', data', handles', liveIds)
    ensures PoolOk(words', data')
  {
  }

  lemma KilledFields(s: State, op: Operand)
    requires Live(s, op)
    ensures
      var k := Killed(s, op);
      && k.words == s.words && k.data == s.data
      && (op.fromTemporaries ==> |k.temps| + 1 == |s.temps| && k.scratch == if |k.temps| == 0 then [] else s.scratch)
      && (!op.fromTemporaries ==> k.temps == s.temps && k.scratch == s.scratch)
  {
    if op.fromTemporaries {
      OneLess(s.temps, op);
    }
  }

  lemma LiveCanView(s: State, op: Operand)
    requires Ok(s) && Live(s, op)
    ensures CanView(s, op)
  {
    hide PoolOk;
    if op.fromTemporaries {
      SomethingIn(s.temps, op);
    }
  }

  lemma IdInBounds(s: State, id: nat)
    requires Ok(s) && id < |s.data|
    ensures CanView(s, Operand(s.data[id], false))
  {
  }

  /** A slice of a live operand may be viewed and holds the part of its word. */
  lemma PartOfOperand(s: State, op: Operand, part: Operand, from: nat)
    requires Ok(s) && Live(s, op) && part.fromTemporaries == op.fromTemporaries
    requires part.slice.start == op.slice.start + from && part.slice.End() <= op.slice.End()
    ensures CanView(s, part) && Ok(Added(s, part))
    ensures Live(Added(s, part), part) && OperandWord(Added(s, part), part) == OperandWord(s, op)[from..from + part.slice.length]
  {
    LiveCanView(s, op);
    InsideView(s, op, part);
    AddedOk(s, part);
    TextPart(if op.fromTemporaries then s.scratch else s.words, op.slice, part.slice, from);
    hide Ok, Text;
  }

  lemma InsideView(s: State, op: Operand, part: Operand)
    requires CanView(s, op) && part.fromTemporaries == op.fromTemporaries && part.slice.End() <= op.slice.End()
    ensures CanView(s, part)
  {
  }

  lemma TextPart(words: Word, whole: Slice, part: Slice, from: nat)
    requires whole.End() <= |words| && part.start == whole.start + from && part.End() <= whole.End()
    ensures Text(words, part) == Text(words, whole)[from..from + part.length]
  {
  }

  lemma OperandLength(s: State, op: Operand)
    requires Ok(s) && Live(s, op)
    ensures |OperandWord(s, op)| == op.slice.length
  {
  }

  lemma OperandsKept(s: State, words: Word, data: seq<Slice>)
    requires Ok(s) && PoolOk(words, data)
    ensures Ok(s.(words := words, data := data, plains := multiset{}))
  {
    hide PoolOk;
  }

  lemma PoolOfOk(s: State)
    requires Ok(s)
    ensures PoolOk(s.words, s.data)
  {
  }

  lemma BufferLength(s: State, n: nat)
    requires Ok(s)
    requires forall j :: 0 <= j < |s.data| ==> s.data[j].End() <= n
    requires n == 0 || exists j :: 0 <= j < |s.data| && s.data[j].End() == n
    ensures n == |s.words|
  {
  }
}
