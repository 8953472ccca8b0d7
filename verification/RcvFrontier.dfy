/** Where readMessage leaves the in-order frontier: it does not search again, so it may stay behind a full scan. */
module RcvFrontier {
  import opened SeqNo
  import opened Packets
  import opened RcvWindow
  import opened RcvWindowInvariant
  import opened RcvMessages

  lemma MessageLocal(msgApi: bool, w: Window, w': Window, k: nat, k': nat)
    requires k < |w| && MessageAt(msgApi, w, k)
    requires k' + (SpanEnd(msgApi, w, k) - k) <= |w'|
    requires forall i :: k <= i < SpanEnd(msgApi, w, k) ==> w'[k' + (i - k)] == w[i]
    ensures MessageAt(msgApi, w', k') && SpanEnd(msgApi, w', k') == k' + (SpanEnd(msgApi, w, k) - k)
  {
    SpanMoves(msgApi, w, k);
    SpanLocal(msgApi, w, w', k, k');
    assert w'[k' + (k - k)] == w[k];
  }

  /** Whether a message is complete does not depend on what lies before it. */
  lemma MessageInSuffix(msgApi: bool, w: Window, c: nat, k: nat)
    requires c <= k <= |w|
    ensures MessageAt(msgApi, w[c..], k - c) <==> MessageAt(msgApi, w, k)
    ensures MessageAt(msgApi, w, k) ==> SpanEnd(msgApi, w[c..], k - c) == SpanEnd(msgApi, w, k) - c
  {
    if MessageAt(msgApi, w, k) {
      MessageLocal(msgApi, w, w[c..], k, k - c);
    } else if MessageAt(msgApi, w[c..], k - c) {
      MessageLocal(msgApi, w[c..], w, k - c, k);
    }
  }

  lemma {:induction false} FrontierInSuffix(msgApi: bool, w: Window, c: nat, k: nat)
    requires c <= k <= |w|
    ensures Frontier(msgApi, w[c..], k - c) == Frontier(msgApi, w, k) - c
    decreases |w| - k
  {
    MessageInSuffix(msgApi, w, c, k);
    if MessageAt(msgApi, w, k) {
      SpanMoves(msgApi, w, k);
      FrontierInSuffix(msgApi, w, c, SpanEnd(msgApi, w, k));
    }
  }

  lemma FrontierStops(msgApi: bool, w: Window, k: nat)
    requires k <= |w|
    ensures Frontier(msgApi, w, k) == k <==> !MessageAt(msgApi, w, k)
  {
    if MessageAt(msgApi, w, k) {
      SpanMoves(msgApi, w, k);
    }
  }

  /** The frontier that is kept, and the one a scan would find, when `c` entries have left: those before `e`, which
      is on the chain, and the fillers from there on. */
  lemma FrontierLeft(w: Window, e: nat, c: nat, f: nat)
    requires e <= |w| && c == e + LeadingFillers(w[e..]) && AllConsistent(w)
    requires f == Frontier(true, w, e)
    ensures (if f >= c then f - c else 0) == Frontier(true, w[c..], 0) <==> c == e || !MessageAt(true, w, c)
  {
    if c > e {
      assert w[e..][0] == w[e] && w[e].Consistent();
      assert f == e;
      FrontierStops(true, w, c);
    }
    FrontierInSuffix(true, w, c, c);
  }

  /** After the first message was read the frontier is where a full scan would put it, unless a filler follows the
      message and a complete message follows the fillers. */
  lemma {:induction false} ReadFirstFrontierIff(m: Mode, s: State)
    requires Inv(m, s) && m.msgApi && FrontierIsScan(m, s) && MessageAt(true, s.w, 0)
    ensures var e := SpanEnd(true, s.w, 0);
            var c := e + LeadingFillers(s.w[e..]);
            FrontierIsScan(m, ReadAt(m, s, 0)) <==> c == e || !MessageAt(true, s.w, c)
  {
    var e := SpanEnd(true, s.w, 0);
    var c := e + LeadingFillers(s.w[e..]);
    SpanMoves(true, s.w, 0);
    assert ReadAt(m, s, 0).w == s.w[c..];
    FrontierLeft(s.w, e, c, s.frontier);
  }

  /** Turning entries into fillers completes no message. */
  lemma StillNoMessage(w: Window, w': Window, k: nat)
    requires |w| == |w'| && forall i :: 0 <= i < |w| && w'[i].Has() ==> w'[i] == w[i]
    requires k < |w| && MessageAt(true, w', k)
    ensures MessageAt(true, w, k)
  {
    SpanShape(true, w', k);
    MessageLocal(true, w', w, k, k);
  }

  /** A message read out of order leaves the frontier right. */
  lemma ReadMiddleFrontier(m: Mode, s: State, r: nat)
    requires Inv(m, s) && m.msgApi && FrontierIsScan(m, s) && s.frontier == 0
    requires 0 < r < |s.w| && MessageAt(true, s.w, r)
    ensures FrontierIsScan(m, ReadAt(m, s, r))
  {
    var e := SpanEnd(true, s.w, r);
    var w' := s.w[..r] + Reads(e - r) + s.w[e..];
    SpanMoves(true, s.w, r);
    assert forall i :: 0 <= i < |w'| ==> w'[i] == if r <= i < e then READ_ENTRY else s.w[i];
    assert !StartIsFiller(w');
    assert ReadAt(m, s, r).w == w';
    FrontierStops(true, s.w, 0);
    FrontierStops(true, w', 0);
    if MessageAt(true, w', 0) {
      StillNoMessage(s.w, w', 0);
    }
  }
}
