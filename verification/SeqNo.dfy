/** Circular 31-bit packet sequence numbers (class CSeqNo).

    Every function works on the wrapped numbers that travel in packets. `Wrap` relates them to the
    unbounded numbers a sender would count without wrapping; it is used by specifications only.
 */
module SeqNo {
  const MAX_SEQ_NO := 0x7FFF_FFFF
  const SEQ_NO_TH := 0x3FFF_FFFF

  type Seq = s: int | 0 <= s <= MAX_SEQ_NO

  function Abs(n: int): nat {
    if n < 0 then -n else n
  }

  function SeqCmp(seq1: Seq, seq2: Seq): int {
    if Abs(seq1 - seq2) < SEQ_NO_TH then seq1 - seq2 else seq2 - seq1
  }

  /** The number of sequence numbers from `seq1` to `seq2`, both included. */
  function SeqLen(seq1: Seq, seq2: Seq): int {
    if seq1 <= seq2 then seq2 - seq1 + 1 else seq2 - seq1 + MAX_SEQ_NO + 2
  }

  function SeqOff(seq1: Seq, seq2: Seq): int {
    if Abs(seq1 - seq2) < SEQ_NO_TH then seq2 - seq1
    else if seq1 < seq2 then seq2 - seq1 - MAX_SEQ_NO - 1
    else seq2 - seq1 + MAX_SEQ_NO + 1
  }

  function IncSeq(s: Seq, inc: int): Seq
    requires 0 <= inc <= MAX_SEQ_NO
  {
    if MAX_SEQ_NO - s >= inc then s + inc else s - MAX_SEQ_NO + inc - 1
  }

  function DecSeq(s: Seq, dec: int): Seq
    requires 0 <= dec <= MAX_SEQ_NO
  {
    if s < dec then MAX_SEQ_NO - (dec - s) + 1 else s - dec
  }

  /** The wrapped number of `u`: one full round of numbers less at a time. */
  function Wrap(u: nat): Seq {
    if u <= MAX_SEQ_NO then u else Wrap(u - MAX_SEQ_NO - 1)
  }

  lemma {:induction false} WrapIsMod(u: nat)
    ensures Wrap(u) == u % 0x8000_0000
  {
    if u > MAX_SEQ_NO {
      WrapIsMod(u - MAX_SEQ_NO - 1);
    }
  }

  /** The offset of two wrapped numbers is the distance of the unbounded ones exactly when that
      distance is below the threshold, or reaches it by at most two while the wrapped numbers
      lie on different sides of zero. */
  lemma OffsetIsDistanceIff(a: nat, b: nat)
    ensures SeqOff(Wrap(a), Wrap(b)) == b - a <==>
            || Abs(b - a) < SEQ_NO_TH
            || (SEQ_NO_TH <= b - a <= SEQ_NO_TH + 2 && Wrap(b) < Wrap(a))
            || (SEQ_NO_TH <= a - b <= SEQ_NO_TH + 2 && Wrap(a) < Wrap(b))
  {
    WrapIsMod(a);
    WrapIsMod(b);
    var q, r := a / 0x8000_0000, b / 0x8000_0000;
    assert a == q * 0x8000_0000 + Wrap(a);
    assert b == r * 0x8000_0000 + Wrap(b);
  }

  lemma OffsetIsDistance(a: nat, b: nat)
    requires Abs(b - a) < SEQ_NO_TH
    ensures SeqOff(Wrap(a), Wrap(b)) == b - a
  {
    OffsetIsDistanceIff(a, b);
  }

  lemma IncFollowsOffset(s: Seq, t: Seq)
    ensures SeqOff(s, t) >= 0 ==> IncSeq(s, SeqOff(s, t)) == t
    ensures SeqOff(s, t) <= 0 ==> DecSeq(s, -SeqOff(s, t)) == t
  {
  }

  /** Comparison and offset order any two numbers the same way, and the offset is antisymmetric. */
  lemma ComparisonAgreesWithOffset(s: Seq, t: Seq)
    ensures SeqCmp(s, t) < 0 <==> SeqOff(s, t) > 0
    ensures SeqCmp(s, t) == 0 <==> s == t
    ensures SeqOff(s, t) == -SeqOff(t, s)
    ensures SeqOff(s, t) >= 0 && s != t ==> SeqLen(s, t) == SeqOff(s, t) + 1
  {
  }

  lemma IncSeqWraps(u: nat, n: nat)
    requires n <= MAX_SEQ_NO
    ensures IncSeq(Wrap(u), n) == Wrap(u + n)
  {
    WrapIsMod(u);
    WrapIsMod(u + n);
    var q, r := u / 0x8000_0000, (u + n) / 0x8000_0000;
    assert u == q * 0x8000_0000 + Wrap(u);
    assert u + n == r * 0x8000_0000 + Wrap(u + n);
  }

  lemma IncSeqAdds(s: Seq, m: nat, n: nat)
    requires m + n <= MAX_SEQ_NO
    ensures IncSeq(IncSeq(s, m), n) == IncSeq(s, m + n)
  {
  }

  lemma DecUndoesInc(s: Seq, n: nat)
    requires n <= MAX_SEQ_NO
    ensures DecSeq(IncSeq(s, n), n) == s && IncSeq(DecSeq(s, n), n) == s
  {
  }
}
