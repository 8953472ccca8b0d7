/** What every operation on the receive window keeps, whatever packets arrive. */
module RcvWindowInvariant {
  import opened SeqNo
  import opened Packets
  import opened RcvWindow

  const INT_MAX := 0x7FFF_FFFF

  predicate StartIsFiller(w: Window) {
    w != [] && w[0].IsFiller()
  }

  /** The packet stored at offset k carries the k-th sequence number from the start. */
  ghost predicate Numbered(w: Window, startSeq: Seq)
    requires |w| <= MAX_SEQ_NO
  {
    forall k :: 0 <= k < |w| && w[k].Has() ==> w[k].Pkt().seqno == IncSeq(startSeq, k)
  }

  ghost predicate AllConsistent(w: Window) {
    forall k :: 0 <= k < |w| ==> w[k].Consistent()
  }

  ghost predicate Inv(m: Mode, s: State) {
    && 1 <= m.size < INT_MAX
    && |s.w| < m.size
    && AllConsistent(s.w)
    && Numbered(s.w, s.startSeq)
    && s.frontier <= |s.w|
    && OnChain(m.msgApi, s.w, 0, s.frontier)
    && !StartIsFiller(s.w)
    && -1 <= s.ooo < m.size
    && (!m.OutOfOrder() ==> s.ooo == -1)
  }

  /** The frontier is where a scan of the whole window would put it. */
  ghost predicate FrontierIsScan(m: Mode, s: State)
  {
    s.frontier == Frontier(m.msgApi, s.w, 0)
  }

  lemma {:induction false} ChainTrans(msgApi: bool, w: Window, k: nat, f: nat, g: nat)
    requires k <= |w| && OnChain(msgApi, w, k, f) && f <= |w| && OnChain(msgApi, w, f, g)
    ensures OnChain(msgApi, w, k, g)
    decreases |w| - k
  {
    if k != f {
      SpanMoves(msgApi, w, k);
      ChainTrans(msgApi, w, SpanEnd(msgApi, w, k), f, g);
    }
  }

  /** In stream mode any run of stored packets is a chain. */
  lemma {:induction false} StreamChain(w: Window, k: nat, f: nat)
    requires k <= f <= |w|
    requires forall i :: k <= i < f ==> w[i].Has()
    ensures OnChain(false, w, k, f)
    decreases f - k
  {
    if k < f {
      StreamChain(w, k + 1, f);
    }
  }

  lemma OooOnInsertRange(w: Window, k: nat, ooo: int)
    requires k < |w| && w[k].Has()
    ensures ooo >= 0 ==> OooOnInsert(w, k, ooo) == ooo
    ensures ooo < 0 ==> -1 <= OooOnInsert(w, k, ooo) < |w|
  {
  }

  lemma {:induction false} SearchOooRange(w: Window, k: nat, first: int, msgno: int)
    requires k <= |w|
    requires -1 <= first < k && msgno >= -1 && (msgno >= 0 ==> first >= 0)
    ensures -1 <= SearchOoo(w, k, first, msgno) < |w|
    decreases |w| - k
  {
    if k < |w| {
      if !w[k].Has() || w[k].Pkt().inOrder {
        SearchOooRange(w, k + 1, -1, -1);
      } else {
        var p := w[k].Pkt();
        var first' := if p.isFirst then k else first;
        var msgno' := if p.isFirst then p.msgno else msgno;
        SearchOooRange(w, k + 1, -1, -1);
        SearchOooRange(w, k + 1, first', msgno');
      }
    }
  }

  lemma ChainPrefix(msgApi: bool, w: Window, w': Window, f: nat)
    requires OnChain(msgApi, w, 0, f)
    requires f <= |w| && f <= |w'| && w'[..f] == w[..f]
    ensures OnChain(msgApi, w', 0, f)
  {
    forall i | 0 <= i < f ensures w'[i] == w[i] {
      assert w'[..f][i] == w[..f][i];
    }
    ChainLocal(msgApi, w, w', 0, f, 0);
  }

  /** Storing a packet beyond the frontier extends the chain of complete messages, and scanning from the
      old frontier gives what a scan of the whole window gives. */
  lemma StoreFrontier(msgApi: bool, w: Window, w': Window, f: nat)
    requires OnChain(msgApi, w, 0, f)
    requires f <= |w| <= |w'| && w'[..f] == w[..f]
    ensures OnChain(msgApi, w', 0, Frontier(msgApi, w', f))
    ensures Frontier(msgApi, w', f) == Frontier(msgApi, w', 0)
  {
    ChainPrefix(msgApi, w, w', f);
    FrontierOnChain(msgApi, w', f);
    ChainTrans(msgApi, w', 0, f, Frontier(msgApi, w', f));
    ScanFromChain(msgApi, w', 0, f);
  }

  /** The window after a packet was stored at offset `off`. */
  function Stored(w: Window, off: nat, u: Unit): (w': Window)
    ensures |w'| == if off < |w| then |w| else off + 1
    ensures forall i :: 0 <= i < |w'| ==>
              w'[i] == if i == off then Entry(Some(u), Avail) else if i < |w| then w[i] else EMPTY_ENTRY
  {
    Grow(w, off + 1)[off := Entry(Some(u), Avail)]
  }

  lemma StoredKeeps(m: Mode, s: State, off: nat, u: Unit)
    requires Inv(m, s) && off < m.size - 1 && off <= MAX_SEQ_NO
    requires u.packet.seqno == IncSeq(s.startSeq, off)
    ensures AllConsistent(Stored(s.w, off, u))
    ensures Numbered(Stored(s.w, off, u), s.startSeq)
    ensures !StartIsFiller(Stored(s.w, off, u))
  {
  }

  /** An entry that refuses a packet lies in the window. */
  lemma RefusedInside(w: Window, off: nat)
    ensures Grow(w, off + 1)[off].status != Empty ==> Grow(w, off + 1) == w
  {
  }

  /** A successful insert moves the frontier, which is searched from its old place only, to where a scan
      of the whole window would put it. A refused insert changes nothing. */
  lemma InsertKeepsInv(m: Mode, s: State, u: Unit)
    requires Inv(m, s)
    ensures Inv(m, Insert(m, s, u).0)
    ensures Insert(m, s, u).1 == INSERTED ==> FrontierIsScan(m, Insert(m, s, u).0)
    ensures Insert(m, s, u).1 != INSERTED ==> Insert(m, s, u).0 == s
  {
    var off := SeqOff(s.startSeq, u.packet.seqno);
    if 0 <= off < m.size - 1 {
      RefusedInside(s.w, off);
      if Grow(s.w, off + 1)[off].status == Empty {
        IncFollowsOffset(s.startSeq, u.packet.seqno);
        var w' := Stored(s.w, off, u);
        StoredKeeps(m, s, off, u);
        ChainStored(m.msgApi, s.w, 0, s.frontier);
        assert forall k :: 0 <= k < s.frontier ==> s.w[k].Has() && s.w[k].Consistent();
        assert w'[..s.frontier] == s.w[..s.frontier];
        StoreFrontier(m.msgApi, s.w, w', s.frontier);
        if m.OutOfOrder() && !u.packet.inOrder {
          OooOnInsertRange(w', off, s.ooo);
        }
      }
    }
  }

  lemma ReleaseNumbered(m: Mode, s: State)
    requires m.size >= 1 && |s.w| <= MAX_SEQ_NO
    requires Numbered(s.w, s.startSeq)
    ensures Numbered(Release(m, s).w, Release(m, s).startSeq)
    ensures !StartIsFiller(Release(m, s).w)
  {
    var c := LeadingFillers(s.w);
    var w' := s.w[c..];
    forall k | 0 <= k < |w'| && w'[k].Has()
      ensures w'[k].Pkt().seqno == IncSeq(IncSeq(s.startSeq, c), k)
    {
      assert w'[k] == s.w[c + k];
      IncSeqAdds(s.startSeq, c, k);
    }
  }

  lemma AdvanceNumbered(w: Window, startSeq: Seq, n: nat)
    requires |w| <= MAX_SEQ_NO && n <= |w| && Numbered(w, startSeq)
    ensures Numbered(w[n..], IncSeq(startSeq, n))
  {
    forall k | 0 <= k < |w[n..]| && w[n..][k].Has()
      ensures w[n..][k].Pkt().seqno == IncSeq(IncSeq(startSeq, n), k)
    {
      assert w[n..][k] == w[n + k];
      IncSeqAdds(startSeq, n, k);
    }
  }

  lemma DropUpToKeepsInv(m: Mode, s: State, seqno: Seq)
    requires Inv(m, s)
    ensures Inv(m, DropUpTo(m, s, seqno).0)
    ensures DropUpTo(m, s, seqno).1 > 0 ==> FrontierIsScan(m, DropUpTo(m, s, seqno).0)
    ensures DropUpTo(m, s, seqno).1 == 0 ==> DropUpTo(m, s, seqno).0 == s
  {
    var len := SeqOff(s.startSeq, seqno);
    if len > 0 {
      IncFollowsOffset(s.startSeq, seqno);
      var s1 := DropFront(m, s, len, seqno);
      AdvanceNumbered(s.w, s.startSeq, Min(len, |s.w|));
      ReleaseNumbered(m, s1);
      var s2 := Release(m, s1);
      FrontierOnChain(m.msgApi, s2.w, 0);
      SearchOooRange(s2.w, 0, -1, -1);
    }
  }

  /** Where the scan stopped it still stops after later entries were turned into fillers. */
  lemma StopsBeforeDrop(msgApi: bool, w: Window, w': Window, f: nat, c: Choice)
    requires f <= |w| && w' == DropChosen(w, c, |w|)
    requires Frontier(msgApi, w, f) == f
    ensures Frontier(msgApi, w', f) == f
  {
    if MessageAt(msgApi, w, f) {
      SpanMoves(msgApi, w, f);
    }
    if MessageAt(msgApi, w', f) {
      SpanShape(msgApi, w', f);
      SpanLocal(msgApi, w', w, f, f);
    }
  }

  /** A drop that picks nothing up to the frontier leaves the frontier right. */
  lemma DropBeyondFrontier(msgApi: bool, w: Window, c: Choice, f: nat)
    requires f <= |w| && OnChain(msgApi, w, 0, f)
    requires forall i :: 0 <= i <= f && i < |w| ==> !c.Picks(i, w[i])
    ensures OnChain(msgApi, DropChosen(w, c, |w|), 0, f)
    ensures f == Frontier(msgApi, w, 0) ==> f == Frontier(msgApi, DropChosen(w, c, |w|), 0)
  {
    var w' := DropChosen(w, c, |w|);
    assert w'[..f] == w[..f];
    ChainPrefix(msgApi, w, w', f);
    if f == Frontier(msgApi, w, 0) {
      ScanFromChain(msgApi, w, 0, f);
      StopsBeforeDrop(msgApi, w, w', f, c);
      ScanFromChain(msgApi, w', 0, f);
    }
  }

  lemma DropPickedKeeps(m: Mode, s: State, c: Choice)
    requires Inv(m, s)
    ensures var s1 := DropPicked(m, s, c); AllConsistent(s1.w) && Numbered(s1.w, s1.startSeq) && -1 <= s1.ooo < m.size
  {
  }

  /** Dropping a message leaves the frontier where a full scan would put it if it was there before. */
  lemma DropMessageKeepsInv(m: Mode, s: State, c: Choice)
    requires Inv(m, s)
    ensures Inv(m, DropMessage(m, s, c).0)
    ensures FrontierIsScan(m, s) ==> FrontierIsScan(m, DropMessage(m, s, c).0)
  {
    var s1 := DropPicked(m, s, c);
    DropPickedKeeps(m, s, c);
    ReleaseNumbered(m, s1);
    var s2 := Release(m, s1);
    SearchOooRange(s2.w, 0, -1, -1);
    var first := FirstPicked(s.w, c, |s.w|);
    if first != -1 && first <= s.frontier {
      FrontierOnChain(m.msgApi, s2.w, 0);
    } else {
      assert !StartIsFiller(s1.w);
      assert s2.w == s1.w;
      DropBeyondFrontier(m.msgApi, s.w, c, s.frontier);
    }
  }

  lemma TakeAtKeeps(m: Mode, s: State, r: nat)
    requires Inv(m, s) && r <= |s.w|
    ensures var s1 := TakeAt(m, s, r);
            AllConsistent(s1.w) && Numbered(s1.w, s1.startSeq) && -1 <= s1.ooo < m.size && |s1.w| <= |s.w|
    ensures r > 0 ==> !StartIsFiller(TakeAt(m, s, r).w) && |TakeAt(m, s, r).w| == |s.w|
  {
    var e := SpanEnd(true, s.w, r);
    var s1 := TakeAt(m, s, r);
    if r == 0 {
      AdvanceNumbered(s.w, s.startSeq, e);
    } else {
      assert forall i :: 0 <= i < |s1.w| ==> s1.w[i] == if r <= i < e then READ_ENTRY else s.w[i];
    }
  }

  /** The chain that is left after the first message was read from the start. */
  lemma ChainAfterRead(msgApi: bool, w: Window, f: nat, c: nat)
    requires f <= |w| && OnChain(msgApi, w, 0, f) && AllConsistent(w)
    requires c == SpanEnd(true, w, 0) + LeadingFillers(w[SpanEnd(true, w, 0)..]) <= f
    ensures OnChain(msgApi, w[c..], 0, f - c)
  {
    var e := SpanEnd(true, w, 0);
    ChainStored(msgApi, w, 0, f);
    if e < f {
      assert w[e..][0] == w[e] && w[e].Has() && w[e].Consistent();
      assert c == e;
    }
    if f == c {
    } else if msgApi {
      assert OnChain(true, w, e, f);
      ChainLocal(true, w, w[c..], e, f, e);
    } else {
      StreamChain(w[c..], 0, f - c);
    }
  }

  /** Where window and frontier are after a read from the start. */
  lemma ReadFrontShape(m: Mode, s: State, c: nat)
    requires Inv(m, s) && c == SpanEnd(true, s.w, 0) + LeadingFillers(s.w[SpanEnd(true, s.w, 0)..])
    ensures c <= |s.w| && ReadAt(m, s, 0).w == s.w[c..]
    ensures ReadAt(m, s, 0).frontier == if s.frontier >= c then s.frontier - c else 0
  {
    var e := SpanEnd(true, s.w, 0);
    assert s.w[e..][c - e..] == s.w[c..];
  }

  /** After a read elsewhere, with nothing readable in order. */
  lemma ReadMiddleShape(m: Mode, s: State, r: nat)
    requires Inv(m, s) && 0 < r <= |s.w| && s.frontier == 0
    ensures ReadAt(m, s, r).frontier == 0
  {
    TakeAtKeeps(m, s, r);
  }

  /** The chain after the first message was read, whether or not the frontier was passed by fillers. */
  lemma ChainLeft(msgApi: bool, w: Window, f: nat, c: nat, w': Window, f': nat)
    requires f <= |w| && OnChain(msgApi, w, 0, f) && AllConsistent(w)
    requires c == SpanEnd(true, w, 0) + LeadingFillers(w[SpanEnd(true, w, 0)..])
    requires w' == w[c..] && f' == if f >= c then f - c else 0
    ensures f' <= |w'| && OnChain(msgApi, w', 0, f')
  {
    if f >= c {
      ChainAfterRead(msgApi, w, f, c);
    }
  }

  /** The chain and its end after a read. */
  lemma ReadKeepsChain(m: Mode, s: State, r: nat)
    requires Inv(m, s) && r <= |s.w| && (r > 0 ==> s.frontier == 0)
    ensures var s' := ReadAt(m, s, r);
            s'.frontier <= |s'.w| && OnChain(m.msgApi, s'.w, 0, s'.frontier)
  {
    var s' := ReadAt(m, s, r);
    if r == 0 {
      var c := SpanEnd(true, s.w, 0) + LeadingFillers(s.w[SpanEnd(true, s.w, 0)..]);
      ReadFrontShape(m, s, c);
      ChainLeft(m.msgApi, s.w, s.frontier, c, s'.w, s'.frontier);
    } else {
      ReadMiddleShape(m, s, r);
    }
  }

  /** `readMessage` keeps the frontier sound, but not always where a full scan would put it. */
  lemma ReadAtKeepsInv(m: Mode, s: State, r: nat)
    requires Inv(m, s) && r <= |s.w| && (r > 0 ==> s.frontier == 0)
    ensures Inv(m, ReadAt(m, s, r))
  {
    var s1 := TakeAt(m, s, r);
    TakeAtKeeps(m, s, r);
    ReleaseNumbered(m, s1);
    SearchOooRange(Release(m, s1).w, 0, -1, -1);
    ReadKeepsChain(m, s, r);
  }

  // ----- reading bytes

  /** The payload bytes of the first `n` entries. */
  function BytesUpTo(w: Window, n: nat): nat
    requires n <= |w|
  {
    if n == 0 then 0 else (if w[0].Has() then |w[0].Pkt().payload| else 0) + BytesUpTo(w[1..], n - 1)
  }

  /** The bytes still to be read of the first `n` packets. */
  function BytesLeft(s: State, n: nat): int
    requires n <= |s.w|
  {
    if n == 0 then 0 else BytesUpTo(s.w, n) - s.notch
  }

  predicate Due(m: Mode, e: Entry, playTime: Packet -> int, now: int)
    requires e.Has()
  {
    !(m.tsbpd && playTime(e.Pkt()) > now)
  }

  /** A read passes all packets in order and comes to a filler: all of them are due, there is room for their bytes, and
      there was still room before the last of them. */
  ghost predicate ComesToFiller(m: Mode, s: State, room: nat, playTime: Packet -> int, now: int)
    requires ReadyToRead(s)
  {
    && 0 < s.frontier < |s.w| && s.w[s.frontier].IsFiller()
    && (forall k :: 0 <= k < s.frontier ==> Due(m, s.w[k], playTime, now))
    && BytesLeft(s, s.frontier - 1) < room && BytesLeft(s, s.frontier) <= room
  }

  /** One packet further. */
  lemma ComesToFillerNext(m: Mode, s: State, room: nat, playTime: Packet -> int, now: int)
    requires m.size >= 1 && ReadyToRead(s) && NotchFits(s) && s.frontier > 1
    requires Due(m, s.w[0], playTime, now) && 0 < room && |s.w[0].Pkt().payload| - s.notch <= room
    ensures ReadyToRead(PassFirst(m, s))
    ensures ComesToFiller(m, s, room, playTime, now) <==>
            ComesToFiller(m, PassFirst(m, s), room - (|s.w[0].Pkt().payload| - s.notch), playTime, now)
  {
    var s1 := PassFirst(m, s);
    assert forall k :: 0 <= k < s1.frontier ==> s1.w[k] == s.w[k + 1];
    assert (forall k :: 0 <= k < s.frontier ==> Due(m, s.w[k], playTime, now)) <==>
           (forall k :: 0 <= k < s1.frontier ==> Due(m, s1.w[k], playTime, now)) by {
      forall k | 0 < k < s.frontier ensures s.w[k] == s1.w[k - 1] {
      }
    }
  }

  lemma FirstFits(s: State, n: nat)
    requires ReadyToRead(s) && NotchFits(s) && 0 < n <= s.frontier
    ensures BytesLeft(s, n) >= |s.w[0].Pkt().payload| - s.notch
  {
  }

  /** Reading bytes in stream mode keeps the invariant except when it comes to a filler, for fillers are not released
      there. */
  lemma {:induction false} ReadBufferKeepsInvIff(m: Mode, s: State, room: nat, playTime: Packet -> int, now: int)
    requires Inv(m, s) && !m.msgApi && ReadyToRead(s) && NotchFits(s)
    ensures var s' := ReadBufferLoop(m, s, room, playTime, now).0;
            && (Inv(m, s') <==> !ComesToFiller(m, s, room, playTime, now))
            && (StartIsFiller(s'.w) <==> ComesToFiller(m, s, room, playTime, now))
            && (StartIsFiller(s'.w) ==> s'.frontier == 0)
    decreases s.frontier
  {
    if s.frontier > 0 {
      FirstFits(s, s.frontier);
      if room > 0 && Due(m, s.w[0], playTime, now) {
        var rest := s.w[0].Pkt().payload[s.notch..];
        if room >= |rest| {
          PassFirstKeeps(m, s, room, playTime, now);
          if s.frontier > 1 {
            ComesToFillerNext(m, s, room, playTime, now);
            ReadBufferKeepsInvIff(m, PassFirst(m, s), room - |rest|, playTime, now);
          }
        }
      }
    }
  }

  lemma PassFirstKeeps(m: Mode, s: State, room: nat, playTime: Packet -> int, now: int)
    requires Inv(m, s) && !m.msgApi && ReadyToRead(s) && NotchFits(s) && s.frontier > 0
    ensures var s1 := PassFirst(m, s);
            && ReadyToRead(s1) && NotchFits(s1)
            && (Inv(m, s1) <==> !StartIsFiller(s1.w))
            && (s.frontier > 1 ==> !StartIsFiller(s1.w))
            && (s.frontier == 1 ==> BytesLeft(s, 1) == |s.w[0].Pkt().payload| - s.notch)
  {
    var s1 := PassFirst(m, s);
    AdvanceNumbered(s.w, s.startSeq, 1);
    StreamChain(s1.w, 0, s1.frontier);
    assert s.frontier > 1 ==> s1.w[0] == s.w[1] && s.w[1].Has() && s.w[1].Consistent();
    assert BytesUpTo(s.w[1..], 0) == 0;
  }

  /** One packet passed, and what the rest of the loop passes. */
  lemma PassedThen(m: Mode, s: State, n: nat)
    requires m.size >= 1 && ReadyToRead(s) && n < s.frontier
    ensures PassFirst(m, s).w[n..] == s.w[n + 1..]
    ensures forall k :: 0 < k < s.frontier ==> PassFirst(m, s).w[k - 1] == s.w[k]
  {
  }

  /** What the loop passed is gone from the window. */
  lemma {:induction false} ReadingPasses(m: Mode, s: State, room: nat, playTime: Packet -> int, now: int)
    requires m.size >= 1 && ReadyToRead(s) && NotchFits(s)
    ensures var s' := ReadBufferLoop(m, s, room, playTime, now).0; s'.w == s.w[s.frontier - s'.frontier..]
    decreases s.frontier
  {
    if s.frontier > 0 && room > 0 && Due(m, s.w[0], playTime, now) {
      var rest := s.w[0].Pkt().payload[s.notch..];
      if room >= |rest| {
        var s1 := PassFirst(m, s);
        var n1 := s1.frontier - ReadBufferLoop(m, s1, room - |rest|, playTime, now).0.frontier;
        ReadingPasses(m, s1, room - |rest|, playTime, now);
        assert s1.w[n1..] == s.w[n1 + 1..];
      }
    }
  }

  /** Packet `k` was read, or at least a part of it. */
  ghost predicate ReadFrom(s: State, s': State, k: nat) {
    var n := s.frontier - s'.frontier;
    k < n || (k == n && s'.notch > if n == 0 then s.notch else 0)
  }

  /** Only packets that are due are read. */
  lemma {:induction false} ReadsWhatIsDue(m: Mode, s: State, room: nat, playTime: Packet -> int, now: int, k: nat)
    requires m.size >= 1 && ReadyToRead(s) && NotchFits(s) && k < s.frontier
    requires ReadFrom(s, ReadBufferLoop(m, s, room, playTime, now).0, k)
    ensures Due(m, s.w[k], playTime, now)
    decreases s.frontier
  {
    if k > 0 && room > 0 && Due(m, s.w[0], playTime, now) {
      var rest := s.w[0].Pkt().payload[s.notch..];
      if room >= |rest| {
        ReadsWhatIsDue(m, PassFirst(m, s), room - |rest|, playTime, now, k - 1);
        assert PassFirst(m, s).w[k - 1] == s.w[k];
      }
    }
  }

  /** Reading stops for one of three reasons: nothing more in order, no room, or a packet that is not due. */
  lemma {:induction false} ReadingStops(m: Mode, s: State, room: nat, playTime: Packet -> int, now: int)
    requires m.size >= 1 && ReadyToRead(s) && NotchFits(s)
    ensures var (s', data) := ReadBufferLoop(m, s, room, playTime, now);
            var n := s.frontier - s'.frontier;
            n == s.frontier || |data| == room || !Due(m, s.w[n], playTime, now)
    decreases s.frontier
  {
    if s.frontier > 0 && room > 0 && Due(m, s.w[0], playTime, now) {
      var rest := s.w[0].Pkt().payload[s.notch..];
      if room >= |rest| {
        var s1 := PassFirst(m, s);
        var n1 := s1.frontier - ReadBufferLoop(m, s1, room - |rest|, playTime, now).0.frontier;
        ReadingStops(m, s1, room - |rest|, playTime, now);
        PassedThen(m, s, n1);
        assert n1 + 1 < s.frontier ==> s1.w[n1 + 1 - 1] == s.w[n1 + 1];
      }
    }
  }

  /** A stored packet of one byte. */
  function OneByte(n: Seq): Entry {
    Entry(Some(Unit(n, Packet(n, n, true, true, true, [7]))), Avail)
  }

  /** It happens: of three packets the second was dropped. After the first was read the reader finds nothing more,
      though the third is there; a packet that arrives does not help, since only a drop releases the filler. */
  lemma ReaderStaysAtFiller(playTime: Packet -> int, now: int)
    ensures var m := Mode(8, false, false);
            var s := State([OneByte(0), DROP_ENTRY, OneByte(2)], 0, 1, -1, 2, 2, 0);
            var s' := ReadBuffer(m, s, 100, playTime, now).0;
            var s'' := Insert(m, s', OneByte(3).unit.value).0;
            && Inv(m, s) && ComesToFiller(m, s, 100, playTime, now)
            && s'.w == [DROP_ENTRY, OneByte(2)] && s'.frontier == 0 && !Inv(m, s')
            && ReadyToRead(s') && ReadBuffer(m, s', 100, playTime, now).1 == []
            && s''.w == [DROP_ENTRY, OneByte(2), OneByte(3)] && s''.frontier == 0
  {
    var m := Mode(8, false, false);
    var w := [OneByte(0), DROP_ENTRY, OneByte(2)];
    var s := State(w, 0, 1, -1, 2, 2, 0);
    StreamChain(w, 0, 1);
    assert w[1..] == [DROP_ENTRY, OneByte(2)];
    var s1 := PassFirst(m, s);
    assert OneByte(0).Pkt().payload[0..] == [7];
    assert s1.frontier == 0 && s1.startSeq == 1 && s1.w == w[1..];
    assert ReadBufferLoop(m, s1, 99, playTime, now) == (s1, []);
    assert BytesUpTo(w[1..], 0) == 0;
    var s' := ReadBuffer(m, s, 100, playTime, now).0;
    assert s' == s1.(pkts := 1, bytes := 1);
    assert SeqOff(1, 3) == 2;
    var w3 := Grow(s'.w, 3)[2 := OneByte(3)];
    assert w3 == [DROP_ENTRY, OneByte(2), OneByte(3)];
    assert Frontier(false, w3, 0) == 0;
  }
}
