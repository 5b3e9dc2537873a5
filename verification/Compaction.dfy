/** The string pool as a buffer with word slices, and the compaction of live slices. */
module Compaction {
  import opened Words
  import opened Counting

  datatype Slice = Slice(start: nat, length: nat) {
    function End(): nat { start + length }
  }

  /** The word that a slice of the buffer holds. */
  function Text(words: Word, s: Slice): Word
    requires s.End() <= |words|
  {
    words[s.start..s.End()]
  }

  predicate InBounds(words: Word, data: seq<Slice>) {
    forall i :: 0 <= i < |data| ==> data[i].End() <= |words|
  }

  /** Id 0 is the empty word, ids have different words, and the buffer ends where the last slice ends. */
  ghost predicate PoolOk(words: Word, data: seq<Slice>) {
    && InBounds(words, data)
    && |data| >= 1 && data[0].length == 0
    && WordsDiffer(words, data)
    && EndsTight(words, data)
  }

  ghost predicate WordsDiffer(words: Word, data: seq<Slice>)
    requires InBounds(words, data)
  {
    forall i, j :: 0 <= i < j < |data| ==> Text(words, data[i]) != Text(words, data[j])
  }

  ghost predicate EndsTight(words: Word, data: seq<Slice>) {
    exists i :: 0 <= i < |data| && data[i].End() == |words|
  }

  // ---------- the bytes that live slices cover ----------

  function Interval(a: nat, b: nat): (r: set<nat>)
    ensures forall i: nat {:trigger i in r} :: i in r <==> a <= i < b
    decreases b
  {
    if a < b then Interval(a, b - 1) + {b - 1} else {}
  }

  /** All positions of the buffer inside the slices with these ids. */
  function Cover(data: seq<Slice>, ids: seq<nat>): set<nat>
    requires forall k :: 0 <= k < |ids| ==> ids[k] < |data|
  {
    if ids == [] then {} else Cover(data, ids[..|ids| - 1]) + Interval(data[ids[|ids| - 1]].start, data[ids[|ids| - 1]].End())
  }

  lemma {:induction false} IntervalSize(a: nat, b: nat)
    requires a <= b
    ensures |Interval(a, b)| == b - a
    decreases b - a
  {
    if a < b {
      IntervalSize(a, b - 1);
    }
  }

  lemma {:induction false} CoverHas(data: seq<Slice>, ids: seq<nat>, i: nat)
    requires forall k :: 0 <= k < |ids| ==> ids[k] < |data|
    ensures i in Cover(data, ids) <==> exists k :: 0 <= k < |ids| && data[ids[k]].start <= i < data[ids[k]].End()
    decreases |ids|
  {
    if ids != [] {
      CoverHas(data, ids[..|ids| - 1], i);
    }
  }

  lemma CoverSnoc(data: seq<Slice>, ids: seq<nat>, k: nat)
    requires k < |ids| && forall k :: 0 <= k < |ids| ==> ids[k] < |data|
    ensures Cover(data, ids[..k + 1]) == Cover(data, ids[..k]) + Interval(data[ids[k]].start, data[ids[k]].End())
  {
    assert ids[..k + 1][..k] == ids[..k];
  }

  /** Growing the covered part, which ends at b, by the positions up to c. */
  lemma CoverGrows(cover: set<nat>, a: nat, b: nat, c: nat)
    requires b <= c && (forall i :: i in cover ==> i < b) && (forall i :: a <= i < b ==> i in cover)
    ensures |cover + Interval(a, c)| == |cover| + if a <= b then c - b else |Interval(a, c)|
  {
    if a <= b {
      assert cover + Interval(a, c) == cover + Interval(b, c);
      assert cover !! Interval(b, c);
      IntervalSize(b, c);
    } else {
      assert cover !! Interval(a, c);
    }
  }

  // ---------- coalescing ----------

  predicate SortedByStart(data: seq<Slice>, ids: seq<nat>) {
    && (forall k :: 0 <= k < |ids| ==> ids[k] < |data|)
    && (forall k, l :: 0 <= k < l < |ids| ==> data[ids[k]].start <= data[ids[l]].start)
  }

  /** The run being copied: the end of the new buffer holds the old positions from oldStart to oldEnd. */
  datatype Run = NoRun | Copying(oldStart: nat, oldEnd: nat, newStart: nat)

  ghost predicate RunOk(words: Word, newWords: Word, r: Run) {
    r.Copying? ==>
      && r.oldStart <= r.oldEnd <= |words| && |newWords| == r.newStart + (r.oldEnd - r.oldStart)
      && newWords[r.newStart..] == words[r.oldStart..r.oldEnd]
  }

  /** What one slice became. */
  ghost predicate Copied(words: Word, data: seq<Slice>, newWords: Word, moved: seq<Slice>, id: nat)
    requires id < |data| && id < |moved|
  {
    && data[id].End() <= |words| && moved[id].length == data[id].length
    && moved[id].End() <= |newWords| && Text(newWords, moved[id]) == Text(words, data[id])
  }

  lemma CopiedKept(words: Word, data: seq<Slice>, newWords: Word, more: Word, moved: seq<Slice>, id: nat)
    requires id < |data| && id < |moved| && Copied(words, data, newWords, moved, id)
    ensures Copied(words, data, newWords + more, moved, id)
  {
    assert Text(newWords + more, moved[id]) == Text(newWords, moved[id]);
  }

  /** A slice inside the current run is found at the same distance from the start of the run. */
  lemma InRun(words: Word, newWords: Word, r: Run, s: Slice)
    requires RunOk(words, newWords, r) && r.Copying? && r.oldStart <= s.start && s.End() <= r.oldEnd
    ensures var s' := Slice(r.newStart + (s.start - r.oldStart), s.length); s'.End() <= |newWords| && Text(newWords, s') == Text(words, s)
  {
    var s' := Slice(r.newStart + (s.start - r.oldStart), s.length);
    var tail := newWords[r.newStart..];
    var d := s.start - r.oldStart;
    SliceOfSlice(newWords, r.newStart, |newWords|, d, d + s.length);
    SliceOfSlice(words, r.oldStart, r.oldEnd, d, d + s.length);
    assert newWords[r.newStart..|newWords|] == tail;
  }

  lemma SliceOfSlice(words: Word, a: nat, b: nat, c: nat, d: nat)
    requires a <= b <= |words| && c <= d <= b - a
    ensures words[a..b][c..d] == words[a + c..a + d]
  {
    var part, whole := words[a..b][c..d], words[a + c..a + d];
    assert |part| == |whole|;
    assert forall i :: 0 <= i < |part| ==> part[i] == words[a..b][c + i] == words[a + (c + i)] == whole[i];
  }

  /** One step of the loop: the slice starts a run, extends the current one, or lies inside it. */
  method CopySlice(words: Word, newWords0: Word, run0: Run, s: Slice) returns (newWords: Word, run: Run, start: nat, ghost more: Word)
    requires RunOk(words, newWords0, run0) && s.End() <= |words|
    requires run0.Copying? ==> run0.oldStart <= s.start
    ensures run.Copying? && RunOk(words, newWords, run) && newWords == newWords0 + more
    ensures run.oldStart <= s.start && run.oldEnd == if run0.Copying? && s.End() <= run0.oldEnd then run0.oldEnd else s.End()
    ensures run.oldStart == if run0.NoRun? || s.start > run0.oldEnd then s.start else run0.oldStart
    ensures |more| == if run0.NoRun? || s.start > run0.oldEnd then s.length else run.oldEnd - run0.oldEnd
    ensures start + s.length <= |newWords| && Text(newWords, Slice(start, s.length)) == Text(words, s)
    ensures run.oldEnd == s.End() ==> start + s.length == |newWords|
  {
    if run0.NoRun? || s.start > run0.oldEnd {
      more := words[s.start..s.End()];
      newWords := newWords0 + words[s.start..s.End()];
      run := Copying(s.start, s.End(), |newWords0|);
      assert newWords[run.newStart..] == more;
    } else if s.End() > run0.oldEnd {
      more := words[run0.oldEnd..s.End()];
      newWords := newWords0 + words[run0.oldEnd..s.End()];
      run := run0.(oldEnd := s.End());
      assert newWords[run.newStart..] == newWords0[run.newStart..] + more;
      assert words[run.oldStart..s.End()] == words[run.oldStart..run0.oldEnd] + more;
    } else {
      more := [];
      newWords, run := newWords0, run0;
      assert newWords0 + more == newWords0;
    }
    InRun(words, newWords, run, s);
    start := run.newStart + (s.start - run.oldStart);
  }

  /** Copies the slices in the order of their starts, each covered byte once. */
  method Coalesce(words: Word, data: seq<Slice>, byStart: seq<nat>) returns (newWords: Word, moved: seq<Slice>)
    requires InBounds(words, data) && SortedByStart(data, byStart)
    requires forall k, l :: 0 <= k < l < |byStart| ==> byStart[k] != byStart[l]
    ensures |moved| == |data| && AllCopied(words, data, newWords, moved, byStart, |byStart|)
    ensures |newWords| == |Cover(data, byStart)|
    ensures byStart != [] ==> exists k :: 0 <= k < |byStart| && moved[byStart[k]].End() == |newWords|
  {
    hide RunOk, AllCopied, Text, Interval, Covered, Untouched, InBounds;
    newWords, moved := [], data;
    var run := NoRun;
    ghost var last := 0;
    NoRunOk(words, data, moved, byStart);
    for k := 0 to |byStart|
      invariant |moved| == |data| && RunOk(words, newWords, run) && (run.NoRun? <==> k == 0)
      invariant AllCopied(words, data, newWords, moved, byStart, k)
      invariant Untouched(data, moved, byStart, k)
      invariant k > 0 ==> last < k && run.oldStart <= data[byStart[k - 1]].start && moved[byStart[last]].End() == |newWords|
      invariant |newWords| == |Cover(data, byStart[..k])| && Covered(Cover(data, byStart[..k]), run)
    {
      var id := byStart[k];
      var s := moved[id];
      SliceFacts(words, data, moved, byStart, k);
      ghost var words0, run0, moved0 := newWords, run, moved;
      ghost var more;
      var start;
      newWords, run, start, more := CopySlice(words, newWords, run, s);
      ghost var cover := Cover(data, byStart[..k]);
      CoverSnoc(data, byStart, k);
      CoverStep(cover, run0, run, s, |more|);
      moved := moved[id := Slice(start, s.length)];
      if run.oldEnd == s.End() {
        last := k;
      }
      StillUntouched(data, moved0, byStart, k, moved[id]);
      OneMoreCopied(words, data, words0, more, moved0, moved, byStart, k);
    }
    assert byStart[..|byStart|] == byStart;
  }

  lemma NoRunOk(words: Word, data: seq<Slice>, moved: seq<Slice>, byStart: seq<nat>)
    requires |moved| == |data| && forall k :: 0 <= k < |byStart| ==> byStart[k] < |data|
    ensures RunOk(words, [], NoRun) && Covered({}, NoRun) && AllCopied(words, data, [], moved, byStart, 0)
    ensures moved == data ==> Untouched(data, moved, byStart, 0)
  {
  }

  ghost predicate Untouched(data: seq<Slice>, moved: seq<Slice>, byStart: seq<nat>, n: nat)
    requires |moved| == |data| && forall k :: 0 <= k < |byStart| ==> byStart[k] < |data|
  {
    forall l {:trigger byStart[l]} :: n <= l < |byStart| ==> moved[byStart[l]] == data[byStart[l]]
  }

  lemma StillUntouched(data: seq<Slice>, moved: seq<Slice>, byStart: seq<nat>, n: nat, s: Slice)
    requires |moved| == |data| && n < |byStart| && (forall k :: 0 <= k < |byStart| ==> byStart[k] < |data|) && Untouched(data, moved, byStart, n)
    requires forall k, l :: 0 <= k < l < |byStart| ==> byStart[k] != byStart[l]
    ensures Untouched(data, moved[byStart[n] := s], byStart, n + 1)
  {
  }

  lemma SliceFacts(words: Word, data: seq<Slice>, moved: seq<Slice>, byStart: seq<nat>, k: nat)
    requires InBounds(words, data) && SortedByStart(data, byStart) && k < |byStart|
    requires |moved| == |data| && Untouched(data, moved, byStart, k)
    ensures moved[byStart[k]] == data[byStart[k]] && data[byStart[k]].End() <= |words|
    ensures k > 0 ==> data[byStart[k - 1]].start <= data[byStart[k]].start
  {
  }

  ghost predicate AllCopied(words: Word, data: seq<Slice>, newWords: Word, moved: seq<Slice>, byStart: seq<nat>, n: nat)
    requires |moved| == |data| && n <= |byStart| && forall k :: 0 <= k < |byStart| ==> byStart[k] < |data|
  {
    forall l {:trigger byStart[l]} :: 0 <= l < n ==> Copied(words, data, newWords, moved, byStart[l])
  }

  lemma OneMoreCopied(words: Word, data: seq<Slice>, newWords: Word, more: Word, moved: seq<Slice>, moved': seq<Slice>, byStart: seq<nat>, n: nat)
    requires |moved| == |moved'| == |data| && n < |byStart| && forall k :: 0 <= k < |byStart| ==> byStart[k] < |data|
    requires forall k, l :: 0 <= k < l < |byStart| ==> byStart[k] != byStart[l]
    requires AllCopied(words, data, newWords, moved, byStart, n) && moved' == moved[byStart[n] := moved'[byStart[n]]]
    requires
      var s, s' := data[byStart[n]], moved'[byStart[n]];
      s.End() <= |words| && s.length == s'.length && s'.End() <= |newWords + more| && Text(newWords + more, s') == Text(words, s)
    ensures AllCopied(words, data, newWords + more, moved', byStart, n + 1)
  {
    hide Text;
    forall l | 0 <= l < n ensures Copied(words, data, newWords + more, moved', byStart[l]) {
      CopiedKept(words, data, newWords, more, moved, byStart[l]);
      assert moved'[byStart[l]] == moved[byStart[l]];
    }
  }

  /** The positions covered so far lie before the end of the run, which is covered as a whole. */
  ghost predicate Covered(cover: set<nat>, r: Run) {
    if r.NoRun? then cover == {}
    else (forall i :: i in cover ==> i < r.oldEnd) && forall i :: r.oldStart <= i < r.oldEnd ==> i in cover
  }

  lemma CoverStep(cover: set<nat>, r: Run, r': Run, s: Slice, more: nat)
    requires Covered(cover, r) && r'.Copying? && (r.Copying? ==> r.oldStart <= s.start)
    requires r'.oldEnd == if r.Copying? && s.End() <= r.oldEnd then r.oldEnd else s.End()
    requires r'.oldStart == if r.NoRun? || s.start > r.oldEnd then s.start else r.oldStart
    requires more == if r.NoRun? || s.start > r.oldEnd then s.length else r'.oldEnd - r.oldEnd
    ensures Covered(cover + Interval(s.start, s.End()), r')
    ensures |cover + Interval(s.start, s.End())| == |cover| + more
  {
    var all := cover + Interval(s.start, s.End());
    IntervalSize(s.start, s.End());
    if r.NoRun? {
      assert all == Interval(s.start, s.End());
    } else if s.start > r.oldEnd {
      CoverGrows(cover, s.start, r.oldEnd, s.End());
    } else if s.End() > r.oldEnd {
      CoverGrows(cover, s.start, r.oldEnd, s.End());
    } else {
      assert all == cover;
    }
  }

  // ---------- live ids and their new numbers ----------

  predicate AllBelow(ids: seq<nat>, n: nat) {
    forall k :: 0 <= k < |ids| ==> ids[k] < n
  }

  predicate Increasing(ids: seq<nat>) {
    forall k, l :: 0 <= k < l < |ids| ==> ids[k] < ids[l]
  }

  /** The empty word is always kept. */
  method MarkLive(n: nat, handles: seq<nat>) returns (live: seq<bool>)
    requires n >= 1 && AllBelow(handles, n)
    ensures |live| == n && forall id :: 0 <= id < n ==> (live[id] <==> id == 0 || id in handles)
  {
    live := seq(n, i => false);
    live := live[0 := true];
    for i := 0 to |handles|
      invariant |live| == n && forall id :: 0 <= id < n ==> (live[id] <==> id == 0 || id in handles[..i])
    {
      live := live[handles[i] := true];
    }
    assert handles[..|handles|] == handles;
  }

  /** Dense numbers in the order of the old ids. */
  ghost predicate Numbers(live: seq<bool>, n: nat, oldToNew: seq<Option<nat>>, liveIds: seq<nat>)
    requires n <= |live| == |oldToNew|
  {
    && AllBelow(liveIds, n) && Increasing(liveIds)
    && (forall id {:trigger oldToNew[id]} :: 0 <= id < n ==> (live[id] <==> oldToNew[id].Some?))
    && (forall id {:trigger oldToNew[id]} :: 0 <= id < n && live[id] ==> oldToNew[id].value < |liveIds| && liveIds[oldToNew[id].value] == id)
    && (forall k {:trigger liveIds[k]} :: 0 <= k < |liveIds| ==> live[liveIds[k]])
  }

  method Number(live: seq<bool>) returns (oldToNew: seq<Option<nat>>, liveIds: seq<nat>)
    ensures |oldToNew| == |live| && Numbers(live, |live|, oldToNew, liveIds)
  {
    oldToNew := seq(|live|, i => None);
    liveIds := [];
    for id := 0 to |live|
      invariant |oldToNew| == |live| && Numbers(live, id, oldToNew, liveIds)
      invariant forall j :: id <= j < |live| ==> oldToNew[j] == None
    {
      if live[id] {
        oldToNew := oldToNew[id := Some(|liveIds|)];
        liveIds := liveIds + [id];
      }
    }
  }

  // ---------- sorting by start ----------

  ghost predicate SameIds(a: seq<nat>, b: seq<nat>) {
    && (forall k, l :: 0 <= k < l < |a| ==> a[k] != a[l])
    && (forall x {:trigger x in a} {:trigger x in b} :: x in a <==> x in b)
  }

  method InsertByStart(data: seq<Slice>, ids: seq<nat>, id: nat) returns (sorted: seq<nat>)
    requires SortedByStart(data, ids) && id < |data|
    requires id !in ids && forall k, l :: 0 <= k < l < |ids| ==> ids[k] != ids[l]
    ensures SortedByStart(data, sorted) && SameIds(sorted, ids + [id])
  {
    hide SameIds;
    var k := |ids|;
    while k > 0 && data[id].start < data[ids[k - 1]].start
      invariant 0 <= k <= |ids|
      invariant forall l :: k <= l < |ids| ==> data[id].start <= data[ids[l]].start
    {
      k := k - 1;
    }
    sorted := ids[..k] + [id] + ids[k..];
    InsertedIds(ids, id, k);
    InsertedSorted(data, ids, id, k);
  }

  lemma InsertedSorted(data: seq<Slice>, ids: seq<nat>, id: nat, k: nat)
    requires SortedByStart(data, ids) && id < |data| && k <= |ids|
    requires forall l :: k <= l < |ids| ==> data[id].start <= data[ids[l]].start
    requires k > 0 ==> data[ids[k - 1]].start <= data[id].start
    ensures SortedByStart(data, ids[..k] + [id] + ids[k..])
  {
    var sorted := ids[..k] + [id] + ids[k..];
    forall l | 0 <= l < |sorted| ensures sorted[l] == if l < k then ids[l] else if l == k then id else ids[l - 1] {
    }
  }

  lemma InsertedIds(ids: seq<nat>, id: nat, k: nat)
    requires k <= |ids| && id !in ids && forall k, l :: 0 <= k < l < |ids| ==> ids[k] != ids[l]
    ensures SameIds(ids[..k] + [id] + ids[k..], ids + [id])
  {
    var sorted := ids[..k] + [id] + ids[k..];
    assert ids == ids[..k] + ids[k..];
    forall x ensures x in sorted <==> x in ids + [id] {
      assert x in ids <==> x in ids[..k] || x in ids[k..];
    }
  }

  method SortByStart(data: seq<Slice>, ids: seq<nat>) returns (byStart: seq<nat>)
    requires AllBelow(ids, |data|) && Increasing(ids)
    ensures SortedByStart(data, byStart) && SameIds(byStart, ids)
  {
    byStart := [];
    for k := 0 to |ids|
      invariant SortedByStart(data, byStart) && SameIds(byStart, ids[..k])
    {
      assert ids[k] !in ids[..k];
      ghost var before := byStart;
      byStart := InsertByStart(data, byStart, ids[k]);
      assert ids[..k + 1] == ids[..k] + [ids[k]];
    }
    assert ids[..|ids|] == ids;
  }

  lemma SameCover(data: seq<Slice>, a: seq<nat>, b: seq<nat>)
    requires AllBelow(a, |data|) && AllBelow(b, |data|) && forall x :: x in a <==> x in b
    ensures Cover(data, a) == Cover(data, b)
  {
    forall i: nat ensures i in Cover(data, a) <==> i in Cover(data, b) {
      CoverHas(data, a, i);
      CoverHas(data, b, i);
      if k :| 0 <= k < |a| && data[a[k]].start <= i < data[a[k]].End() {
        assert a[k] in b;
      }
      if k :| 0 <= k < |b| && data[b[k]].start <= i < data[b[k]].End() {
        assert b[k] in a;
      }
    }
  }

  // ---------- the whole compaction ----------

  /** Every handle written back denotes the same word, and only the empty word and handled words keep ids. */
  ghost predicate Compacted(words: Word, data: seq<Slice>, handles: seq<nat>, words': Word, data': seq<Slice>, handles': seq<nat>, liveIds: seq<nat>) {
    && InBounds(words, data) && AllBelow(handles, |data|) && AllBelow(liveIds, |data|)
    && PoolOk(words', data')
    // dense ids, in the order of the old ones
    && |data'| == |liveIds| && Increasing(liveIds) && liveIds[0] == 0
    && (forall k :: 0 <= k < |liveIds| ==> liveIds[k] == 0 || liveIds[k] in handles)
    && (forall k {:trigger data'[k]} :: 0 <= k < |liveIds| ==> Text(words', data'[k]) == Text(words, data[liveIds[k]]))
    // the handles
    && |handles'| == |handles|
    && (forall i {:trigger handles'[i]} :: 0 <= i < |handles| ==> handles'[i] < |liveIds| && liveIds[handles'[i]] == handles[i])
    // one copy of each byte inside a live word
    && |words'| == |Cover(data, liveIds)|
  }

  lemma HandlesKeepWords(words: Word, data: seq<Slice>, handles: seq<nat>, words': Word, data': seq<Slice>, handles': seq<nat>, liveIds: seq<nat>, i: nat)
    requires Compacted(words, data, handles, words', data', handles', liveIds) && i < |handles|
    ensures handles'[i] < |data'| && Text(words', data'[handles'[i]]) == Text(words, data[handles[i]])
  {
    hide Text;
  }

  lemma HandlesKeepOrder(words: Word, data: seq<Slice>, handles: seq<nat>, words': Word, data': seq<Slice>, handles': seq<nat>, liveIds: seq<nat>, i: nat, j: nat)
    requires Compacted(words, data, handles, words', data', handles', liveIds) && i < |handles| && j < |handles|
    ensures handles'[i] < handles'[j] <==> handles[i] < handles[j]
    ensures handles'[i] == 0 <==> handles[i] == 0
  {
    hide Text;
    var a, b := handles'[i], handles'[j];
    assert a < b ==> liveIds[a] < liveIds[b];
    assert b < a ==> liveIds[b] < liveIds[a];
    assert a > 0 ==> liveIds[0] < liveIds[a];
  }

  /** The new tables, and the numbers to write back into the handles. */
  method Rebuild(words: Word, data: seq<Slice>, handles: seq<nat>) returns (words': Word, data': seq<Slice>, oldToNew: seq<Option<nat>>, ghost liveIds: seq<nat>)
    requires PoolOk(words, data) && AllBelow(handles, |data|)
    ensures |oldToNew| == |data| && forall i :: 0 <= i < |handles| ==> oldToNew[handles[i]].Some?
    ensures Compacted(words, data, handles, words', data', seq(|handles|, i requires 0 <= i < |handles| => oldToNew[handles[i]].value), liveIds)
  {
    hide Text, AllCopied, EndsTight, Numbers, SameIds, Compacted, Cover, SortedByStart;
    var live := MarkLive(|data|, handles);
    var ids;
    oldToNew, ids := Number(live);
    liveIds := ids;
    NumbersFacts(live, handles, oldToNew, ids);
    var byStart := SortByStart(data, ids);
    SortedFacts(data, ids, byStart);
    var moved;
    words', moved := Coalesce(words, data, byStart);
    data' := seq(|ids|, k requires 0 <= k < |ids| => moved[ids[k]]);
    SameIdsFacts(byStart, ids);
    SameCover(data, byStart, ids);
    ghost var last :| 0 <= last < |byStart| && moved[byStart[last]].End() == |words'|;
    ghost var k :| 0 <= k < |ids| && ids[k] == byStart[last];
    RebuiltTables(words, data, ids, byStart, words', moved, data', k);
    RebuiltHandles(words, data, handles, live, oldToNew, ids, words', data');
  }

  lemma NumbersFacts(live: seq<bool>, handles: seq<nat>, oldToNew: seq<Option<nat>>, ids: seq<nat>)
    requires |live| == |oldToNew| >= 1 && Numbers(live, |live|, oldToNew, ids) && AllBelow(handles, |live|)
    requires forall id :: 0 <= id < |live| ==> (live[id] <==> id == 0 || id in handles)
    ensures AllBelow(ids, |live|) && Increasing(ids) && ids != [] && ids[0] == 0
    ensures forall i {:trigger handles[i]} :: 0 <= i < |handles| ==> oldToNew[handles[i]].Some?
  {
    assert live[0] && oldToNew[0].Some?;
    var k := oldToNew[0].value;
    assert ids[0] <= ids[k] == 0;
  }

  lemma SortedFacts(data: seq<Slice>, ids: seq<nat>, byStart: seq<nat>)
    requires SortedByStart(data, byStart) && SameIds(byStart, ids) && ids != []
    ensures AllBelow(byStart, |data|) && byStart != [] && forall k, l :: 0 <= k < l < |byStart| ==> byStart[k] != byStart[l]
  {
    assert ids[0] in byStart;
  }

  lemma SameIdsFacts(a: seq<nat>, b: seq<nat>)
    requires SameIds(a, b)
    ensures (forall x :: x in a <==> x in b) && forall k {:trigger a[k]} :: 0 <= k < |a| ==> a[k] in b
  {
  }

  lemma RebuiltHandles(words: Word, data: seq<Slice>, handles: seq<nat>, live: seq<bool>, oldToNew: seq<Option<nat>>, ids: seq<nat>, words': Word, data': seq<Slice>)
    requires InBounds(words, data) && AllBelow(handles, |data|) && |live| == |oldToNew| == |data| >= 1
    requires Numbers(live, |live|, oldToNew, ids)
    requires forall id :: 0 <= id < |live| ==> (live[id] <==> id == 0 || id in handles)
    requires PoolOk(words', data') && |data'| == |ids| && |words'| == |Cover(data, ids)|
    requires forall k {:trigger data'[k]} :: 0 <= k < |ids| ==> Text(words', data'[k]) == Text(words, data[ids[k]])
    ensures forall i :: 0 <= i < |handles| ==> oldToNew[handles[i]].Some?
    ensures Compacted(words, data, handles, words', data', seq(|handles|, i requires 0 <= i < |handles| => oldToNew[handles[i]].value), ids)
  {
    NumbersFacts(live, handles, oldToNew, ids);
    hide Text, PoolOk, Cover;
    PoolOkBounds(words', data');
    var handles' := seq(|handles|, i requires 0 <= i < |handles| => oldToNew[handles[i]].value);
    forall i | 0 <= i < |handles| ensures handles'[i] < |ids| && ids[handles'[i]] == handles[i] {
      assert live[handles[i]] && oldToNew[handles[i]].Some?;
    }
    forall k | 0 <= k < |ids| ensures ids[k] == 0 || ids[k] in handles {
      assert live[ids[k]];
    }
  }

  lemma PoolOkBounds(words: Word, data: seq<Slice>)
    requires PoolOk(words, data)
    ensures InBounds(words, data)
  {
  }

  lemma RebuiltTables(words: Word, data: seq<Slice>, ids: seq<nat>, byStart: seq<nat>, words': Word, moved: seq<Slice>, data': seq<Slice>, last: nat)
    requires PoolOk(words, data) && AllBelow(ids, |data|) && Increasing(ids) && ids != [] && ids[0] == 0
    requires AllBelow(byStart, |data|) && SameIds(byStart, ids) && |moved| == |data| && AllCopied(words, data, words', moved, byStart, |byStart|)
    requires |data'| == |ids| && forall k :: 0 <= k < |ids| ==> data'[k] == moved[ids[k]]
    requires last < |ids| && data'[last].End() == |words'|
    ensures PoolOk(words', data') && forall k {:trigger data'[k]} :: 0 <= k < |ids| ==> Text(words', data'[k]) == Text(words, data[ids[k]])
  {
    hide Text;
    forall k | 0 <= k < |ids| ensures Copied(words, data, words', moved, ids[k]) {
      assert ids[k] in byStart;
      var l :| 0 <= l < |byStart| && byStart[l] == ids[k];
    }
    forall k, l | 0 <= k < l < |ids| ensures Text(words', data'[k]) != Text(words', data'[l]) {
      assert Text(words', data'[k]) == Text(words, data[ids[k]]);
      assert Text(words', data'[l]) == Text(words, data[ids[l]]);
    }
    assert Copied(words, data, words', moved, ids[0]);
  }
}
