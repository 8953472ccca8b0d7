/** Every operation keeps the index of messages readable out of order sound and complete. */
module RcvIndex {
  import opened SeqNo
  import opened Packets
  import opened RcvWindow
  import opened RcvWindowInvariant
  import opened RcvMessages

  ghost predicate IndexGood(s: State) {
    Coherent(s.w) && OooSound(s) && OooComplete(s)
  }

  /** A message that does not contain the packet just stored was there before. */
  lemma OldMessage(w: Window, w': Window, off: nat, k: nat)
    requires UnorderedAt(w', k) && !(k <= off < SpanEnd(true, w', k))
    requires forall i :: 0 <= i < |w'| && i != off && w'[i].Has() ==> i < |w| && w'[i] == w[i]
    ensures UnorderedAt(w, k)
  {
    SpanMoves(true, w', k);
    SpanShape(true, w', k);
    assert w'[SpanEnd(true, w', k) - 1].Has();
    MessageSame(w', w, k);
  }

  /** A message is still there after a packet was stored in an empty entry. */
  lemma MessageStays(w: Window, off: nat, u: Unit, k: nat)
    requires UnorderedAt(w, k) && (off < |w| ==> !w[off].Has())
    ensures UnorderedAt(Stored(w, off, u), k)
  {
    SpanShape(true, w, k);
    MessageSame(w, Stored(w, off, u), k);
  }

  /** An ordered packet is no part of an unordered message. */
  lemma NotPartOf(w: Window, off: nat, k: nat)
    requires Coherent(w) && off < |w| && w[off].Has() && w[off].Pkt().inOrder && UnorderedAt(w, k)
    ensures !(k <= off < SpanEnd(true, w, k))
  {
    MessageShape(w, k);
  }

  lemma StoredKeepsIndex(m: Mode, s: State, off: nat, u: Unit)
    requires Inv(m, s) && m.OutOfOrder() && IndexGood(s) && Coherent(Stored(s.w, off, u))
    requires off < |s.w| ==> !s.w[off].Has()
    ensures var w' := Stored(s.w, off, u);
            var ooo := if u.packet.inOrder then s.ooo else OooOnInsert(w', off, s.ooo);
            && (ooo >= 0 ==> UnorderedAt(w', ooo))
            && (s.frontier == 0 && ooo < 0 ==> forall k :: !UnorderedAt(w', k))
  {
    var w' := Stored(s.w, off, u);
    if s.ooo >= 0 {
      MessageStays(s.w, off, u, s.ooo);
    } else {
      assert s.ooo == -1;
      if !u.packet.inOrder {
        OooOnInsertCorrect(w', off);
      }
      forall k | s.frontier == 0 && UnorderedAt(w', k)
        ensures !u.packet.inOrder && k <= off < SpanEnd(true, w', k)
      {
        if u.packet.inOrder {
          NotPartOf(w', off, k);
        }
        if !(k <= off < SpanEnd(true, w', k)) {
          OldMessage(s.w, w', off, k);
        }
      }
    }
  }

  lemma InsertKeepsIndex(m: Mode, s: State, u: Unit)
    requires Inv(m, s) && m.OutOfOrder() && IndexGood(s) && Coherent(Insert(m, s, u).0.w)
    ensures IndexGood(Insert(m, s, u).0)
  {
    InsertKeepsInv(m, s, u);
    var (s', code) := Insert(m, s, u);
    if code == INSERTED {
      var off := SeqOff(s.startSeq, u.packet.seqno);
      assert s'.w == Stored(s.w, off, u);
      assert s'.frontier >= s.frontier;
      if off < |s.w| {
        assert s.w[off].Consistent();
      }
      StoredKeepsIndex(m, s, off, u);
    }
  }

  /** A message is still there when entries before it have left. */
  lemma MessageLeft(w: Window, k: nat, c: nat)
    requires UnorderedAt(w, k) && c <= k
    ensures UnorderedAt(w[c..], k - c)
  {
    MessageMoves(w, w[c..], k, c);
  }

  /** The index after the first `len` positions and the fillers behind them are gone. */
  lemma DropFrontKeepsIndex(m: Mode, s: State, len: nat, seqno: Seq)
    requires Inv(m, s) && m.OutOfOrder() && OooSound(s)
    ensures var s2 := Release(m, DropFront(m, s, len, seqno));
            s2.ooo >= -1 && (s2.ooo >= 0 ==> UnorderedAt(s2.w, s2.ooo))
  {
    var n := Min(len, |s.w|);
    var s1 := DropFront(m, s, len, seqno);
    if s.ooo >= 0 {
      if s.ooo < n {
        assert s.w[..n][s.ooo] == s.w[s.ooo];
        assert s1.ooo == -1;
      } else {
        assert n == len;
        var k := LeadingFillers(s1.w);
        assert s1.w[s.ooo - n] == s.w[s.ooo];
        assert s.w[s.ooo].Consistent();
        assert s1.ooo == s.ooo - n;
        MessageLeft(s.w, s.ooo, n);
        MessageLeft(s1.w, s1.ooo, k);
      }
    }
  }

  lemma DropUpToKeepsIndex(m: Mode, s: State, seqno: Seq)
    requires Inv(m, s) && m.OutOfOrder() && IndexGood(s) && Coherent(DropUpTo(m, s, seqno).0.w)
    ensures IndexGood(DropUpTo(m, s, seqno).0)
  {
    var len := SeqOff(s.startSeq, seqno);
    if len > 0 {
      var s2 := Release(m, DropFront(m, s, len, seqno));
      DropFrontKeepsIndex(m, s, len, seqno);
      UpdateCorrect(s2.w, Frontier(m.msgApi, s2.w, 0), s2.ooo);
    }
  }

  /** The check accepts whole unordered messages only. */
  lemma {:induction false} CheckSound(w: Window, k: nat, msgno: int)
    requires k <= |w| && OooCheck(w, k, msgno)
    ensures w[k].Has() && !w[k].Pkt().inOrder && SpanComplete(true, w, k)
    decreases |w| - k
  {
    if !w[k].Pkt().isLast {
      CheckSound(w, k + 1, if msgno == -1 then w[k].Pkt().msgno else msgno);
    }
  }

  lemma DropMessageKeepsIndex(m: Mode, s: State, c: Choice)
    requires Inv(m, s) && m.OutOfOrder() && IndexGood(s) && Coherent(DropMessage(m, s, c).0.w)
    ensures IndexGood(DropMessage(m, s, c).0)
  {
    var s1 := DropPicked(m, s, c);
    var s2 := Release(m, s1);
    var n := LeadingFillers(s1.w);
    var s' := DropMessage(m, s, c).0;
    var o := if 0 <= s2.ooo <= |s2.w| && OooCheck(s2.w, s2.ooo, -1) then s2.ooo else -1;
    if o >= 0 {
      CheckSound(s2.w, o, -1);
      assert o == s.ooo - n;
      assert s2.w[o] == s1.w[s.ooo];
    }
    UpdateCorrect(s2.w, s'.frontier, o);
  }

  lemma ReadAtKeepsIndex(m: Mode, s: State, r: nat)
    requires Inv(m, s) && m.OutOfOrder() && IndexGood(s)
    requires r < |s.w| && Coherent(ReadAt(m, s, r).w) && MessageAt(true, s.w, r)
    requires r > 0 ==> r == s.ooo && s.frontier == 0
    ensures IndexGood(ReadAt(m, s, r))
  {
    var s1 := TakeAndCount(m, s, r);
    var s2 := Release(m, s1);
    var e := SpanEnd(true, s.w, r);
    MessageShape(s.w, r);
    if s.ooo >= 0 && s.ooo != r {
      assert r == 0;
      var c := e + LeadingFillers(s1.w);
      assert s2.w == s.w[c..];
      assert s.ooo >= e;
      assert s1.w[s.ooo - e] == s.w[s.ooo];
      assert s.w[s.ooo].Consistent();
      MessageLeft(s.w, s.ooo, c);
      assert s2.ooo == s.ooo - c;
    }
    UpdateCorrect(s2.w, ReadAt(m, s, r).frontier, s2.ooo);
  }
}
