/** Words over an alphabet and the operations of the free monoid that the transducer code uses. */
module Words {

  type Symbol = nat
  type Word = seq<Symbol>

  datatype Option<+T> = None | Some(value: T)

  /** The greatest common prefix of two words: a common prefix that the next letter does not extend. */
  function Gcp(a: Word, b: Word): (r: Word)
    ensures r <= a && r <= b
    ensures |r| == |a| || |r| == |b| || a[|r|] != b[|r|]
  {
    if a != [] && b != [] && a[0] == b[0] then [a[0]] + Gcp(a[1..], b[1..]) else []
  }

  lemma GcpGreatest(a: Word, b: Word, c: Word)
    requires c <= a && c <= b
    ensures c <= Gcp(a, b)
  {
    var g := Gcp(a, b);
    assert |c| <= |g|;
  }

  /** The counting loop behind `gcp`. */
  method GcpLen(a: Word, b: Word) returns (len: nat)
    ensures len <= |a| && len <= |b|
    ensures a[..len] == Gcp(a, b)
  {
    len := 0;
    while len < |a| && len < |b| && a[len] == b[len]
      invariant len <= |a| && len <= |b|
      invariant a[..len] == b[..len]
    {
      len := len + 1;
    }
    assert b[..len] <= b;
    GcpGreatest(a, b, a[..len]);
  }

  /** The left quotient `a^-1 . b`. */
  function InvMul(a: Word, b: Word): (r: Word)
    requires a <= b
    ensures a + r == b
  {
    b[|a|..]
  }

  lemma PrefixesComparable(a: Word, b: Word, c: Word)
    requires a <= c && b <= c
    ensures |a| <= |b| ==> a <= b
  {
    assert a == c[..|a|] && b == c[..|b|];
  }

  /** When the two words share an upper bound, their gcp is the shorter of them. */
  lemma GcpOfComparable(a: Word, b: Word, c: Word)
    requires a <= c && b <= c
    ensures Gcp(a, b) == if |a| <= |b| then a else b
  {
    PrefixesComparable(a, b, c);
    PrefixesComparable(b, a, c);
  }

  /** Prefixing both sides by the same word changes nothing. */
  lemma PrefixCancel(w: Word, a: Word, b: Word)
    ensures w + a <= w + b <==> a <= b
  {
    if w + a <= w + b {
      assert (w + a)[|w|..] == a && (w + b)[|w|..] == b;
      assert forall i :: 0 <= i < |a| ==> a[i] == (w + a)[|w| + i] == (w + b)[|w| + i] == b[i];
    }
    if a <= b {
      assert w + b == w + a + b[|a|..];
    }
  }

  lemma Associate(a: Word, b: Word, c: Word)
    ensures a + (b + c) == (a + b) + c
  {
  }
}
