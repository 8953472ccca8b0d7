/** What is read in the end: once all packets of a stream have arrived, and nothing more can be read. */
module RcvProgress {
  import opened SeqNo
  import opened Packets
  import opened RcvWindow
  import opened RcvWindowInvariant
  import opened RcvMessages
  import opened RcvIndex
  import opened RcvRun
  import opened RcvDelivery
  import opened RcvLaws
  import opened RcvFrontier

  /** The stream does not end inside a message. */
  ghost predicate Finished(st: Stream) {
    st != [] ==> st[0].isFirst && st[|st| - 1].isLast
  }

  /** Where the message of packet `u` begins. */
  function MsgStart(st: Stream, u: nat): (lo: nat)
    requires u < |st|
    ensures lo <= u && (lo == 0 || st[lo].isFirst)
    ensures forall i :: lo < i <= u ==> !st[i].isFirst
  {
    if u == 0 || st[u].isFirst then u else MsgStart(st, u - 1)
  }

  /** Where it ends. */
  function MsgEnd(st: Stream, u: nat): (hi: nat)
    requires u < |st|
    ensures u < hi <= |st| && (hi == |st| || st[hi - 1].isLast)
    ensures forall i :: u <= i < hi - 1 ==> !st[i].isLast
    decreases |st| - u
  {
    if u + 1 == |st| || st[u].isLast then u + 1 else MsgEnd(st, u + 1)
  }

  lemma {:induction false} MessageAround(st: Stream, u: nat)
    requires WellFormed(st) && Finished(st) && u < |st|
    ensures Whole(st, MsgStart(st, u), MsgEnd(st, u))
  {
    var lo, hi := MsgStart(st, u), MsgEnd(st, u);
    forall i | lo <= i < hi - 1 ensures !st[i].isLast {
      if i < u {
        assert !st[i + 1].isFirst;
      }
    }
  }

  lemma NoFirstInside(st: Stream, lo: nat, hi: nat)
    requires WellFormed(st) && Whole(st, lo, hi)
    ensures forall x :: lo < x < hi ==> !st[x].isFirst
  {
    forall x | lo < x < hi ensures !st[x].isFirst {
      assert st[x - 1].isLast <==> st[x - 1 + 1].isFirst;
    }
  }

  /** Two messages with a packet in common are one. */
  lemma SameWhole(st: Stream, lo: nat, hi: nat, lo': nat, hi': nat, u: nat)
    requires WellFormed(st) && Whole(st, lo, hi) && Whole(st, lo', hi')
    requires lo <= u < hi && lo' <= u < hi'
    ensures lo == lo' && hi == hi'
  {
    NoFirstInside(st, lo, hi);
    NoFirstInside(st, lo', hi');
  }

  /** Every packet arrived, and nothing was given up. */
  ghost predicate AllArrived(st: Stream, s: Sys) {
    && s.dropped == {}
    && forall u: nat :: u < |st| ==> Gone(s, u) || StoredIn(s, u)
  }

  /** If one packet of a message was read, all of them were. */
  lemma ReadTogether(st: Stream, s: Sys, lo: nat, hi: nat, x: nat, u: nat)
    requires WellFormed(st) && LogGood(st, s) && Whole(st, lo, hi) && lo <= x < hi && lo <= u < hi
    requires WasRead(s, x)
    ensures WasRead(s, u)
  {
    var i :| 0 <= i < |s.log| && s.log[i].lo <= x < s.log[i].hi;
    assert DeliversMessage(st, s.log[i]);
    SameWhole(st, lo, hi, s.log[i].lo, s.log[i].hi, x);
  }

  /** Every packet of a message not read is stored. */
  lemma StoredTogether(st: Stream, isn: nat, s: Sys, lo: nat, hi: nat, x: nat, u: nat)
    requires WellFormed(st) && LogGood(st, s) && Numbers(st, isn, s) && AllArrived(st, s)
    requires Whole(st, lo, hi) && lo <= x < hi && lo <= u < hi && !Gone(s, u)
    ensures StoredIn(s, x) && s.rcv.w[x - s.base].Pkt() == st[x]
  {
    if WasRead(s, x) {
      ReadTogether(st, s, lo, hi, x, u);
    }
  }

  /** A stretch of stored packets that is a message of the stream. */
  lemma StretchIsMessage(st: Stream, w: Window, b: nat, k: nat, e: nat)
    requires Whole(st, b + k, b + e) && e <= |w|
    requires forall i :: k <= i < e ==> w[i].Has() && w[i].Pkt() == st[b + i]
    ensures MessageAt(true, w, k)
  {
    forall i | k <= i < e - 1 ensures !Ends(true, w[i]) {
      assert !st[b + i].isLast;
    }
    assert w[e - 1].Pkt() == st[b + e - 1];
    SpanIs(true, w, k, e);
  }

  lemma AllStored(st: Stream, isn: nat, s: Sys, lo: nat, hi: nat, u: nat)
    requires WellFormed(st) && LogGood(st, s) && Numbers(st, isn, s) && AllArrived(st, s)
    requires Whole(st, lo, hi) && lo <= u < hi && !Gone(s, u)
    ensures s.base <= lo && hi <= s.base + |s.rcv.w|
    ensures forall i :: lo - s.base <= i < hi - s.base ==> s.rcv.w[i].Has() && s.rcv.w[i].Pkt() == st[s.base + i]
  {
    StoredTogether(st, isn, s, lo, hi, lo, u);
    StoredTogether(st, isn, s, lo, hi, hi - 1, u);
    forall i | lo - s.base <= i < hi - s.base ensures s.rcv.w[i].Has() && s.rcv.w[i].Pkt() == st[s.base + i] {
      StoredTogether(st, isn, s, lo, hi, s.base + i, u);
    }
  }

  /** A message of which a packet was not read is stored whole. */
  lemma {:induction false} MessageStored(m: Mode, st: Stream, isn: nat, s: Sys, u: nat)
    requires Good(m, st, isn, s) && WellFormed(st) && Finished(st) && AllArrived(st, s)
    requires u < |st| && !Gone(s, u)
    ensures var lo, hi := MsgStart(st, u), MsgEnd(st, u);
            && s.base <= lo < hi <= s.base + |s.rcv.w|
            && MessageAt(true, s.rcv.w, lo - s.base)
            && s.rcv.w[lo - s.base].Pkt() == st[lo]
  {
    var lo, hi := MsgStart(st, u), MsgEnd(st, u);
    MessageAround(st, u);
    AllStored(st, isn, s, lo, hi, u);
    StretchIsMessage(st, s.rcv.w, s.base, lo - s.base, hi - s.base);
  }

  lemma {:induction false} SameFlag(st: Stream, lo: nat, u: nat)
    requires WellFormed(st) && lo <= u < |st|
    requires forall i :: lo <= i < u ==> !st[i].isLast
    ensures st[u].inOrder == st[lo].inOrder
  {
    if lo < u {
      SameFlag(st, lo, u - 1);
      assert !st[u - 1].isLast ==> st[u - 1].inOrder == st[u - 1 + 1].inOrder;
    }
  }

  /** With nothing readable there is no message in order, and none to be read out of order. */
  lemma NothingThere(m: Mode, s: State)
    requires Inv(m, s) && IndexGood(s) && ReadOffset(s) < 0
    ensures s.frontier == 0 && forall k :: !UnorderedAt(s.w, k)
  {
    ChainStored(m.msgApi, s.w, 0, s.frontier);
  }

  lemma {:induction false} UnorderedStored(m: Mode, st: Stream, isn: nat, s: Sys, u: nat)
    requires Good(m, st, isn, s) && WellFormed(st) && Finished(st) && AllArrived(st, s)
    requires u < |st| && !st[u].inOrder && !Gone(s, u)
    ensures UnorderedAt(s.rcv.w, MsgStart(st, u) - s.base)
  {
    MessageStored(m, st, isn, s, u);
    MessageAround(st, u);
    SameFlag(st, MsgStart(st, u), u);
  }

  /** Every message that may be read out of order was read. */
  lemma UnorderedRead(m: Mode, st: Stream, isn: nat, s: Sys, u: nat)
    requires Good(m, st, isn, s) && WellFormed(st) && Finished(st) && AllArrived(st, s) && ReadOffset(s.rcv) < 0
    requires u < |st| && !st[u].inOrder
    ensures WasRead(s, u)
  {
    if !Gone(s, u) {
      UnorderedStored(m, st, isn, s, u);
      NothingThere(m, s.rcv);
    }
  }

  /** Everything was read exactly if the frontier is where a full scan would put it. */
  lemma AllReadIff(m: Mode, st: Stream, isn: nat, s: Sys)
    requires Good(m, st, isn, s) && m.msgApi && WellFormed(st) && Finished(st) && AllArrived(st, s)
    requires ReadOffset(s.rcv) < 0
    ensures (forall u: nat :: u < |st| ==> WasRead(s, u)) <==> FrontierIsScan(m, s.rcv)
  {
    var w := s.rcv.w;
    NothingThere(m, s.rcv);
    FrontierStops(true, w, 0);
    if FrontierIsScan(m, s.rcv) {
      forall u: nat | u < |st| ensures WasRead(s, u) {
        if !Gone(s, u) {
          assert !Gone(s, s.base);
          MessageStored(m, st, isn, s, s.base);
        }
      }
    } else {
      assert w[0].Has() && w[0].Consistent();
      assert s.base < |st| && !Gone(s, s.base);
    }
  }

  // ----- arrivals

  /** Packet `u` arrives at some time of the run, inside the capacity of that time. */
  ghost predicate Takes(m: Mode, st: Stream, isn: nat, s: Sys, es: seq<Event>, u: nat)
    decreases |es|
  {
    && es != [] && Inv(m, s.rcv) && Allowed(st, s, es[0])
    && (|| (es[0].Arrive? && es[0].u == u && u < s.base + m.size - 1)
        || Takes(m, st, isn, Next(m, st, isn, s, es[0]), es[1..], u))
  }

  /** What is stored stays so until it is gone, and what is gone stays gone. */
  lemma {:induction false} Stays(m: Mode, st: Stream, isn: nat, s: Sys, es: seq<Event>, s': Sys, u: nat)
    requires SysInv(m, st, isn, s) && InSequence(st, isn) && m.size <= SEQ_NO_TH && Leads(m, st, isn, s, es, s')
    requires Gone(s, u) || StoredIn(s, u)
    ensures Gone(s', u) || StoredIn(s', u)
    decreases |es|
  {
    if es != [] {
      EventLaw(m, st, isn, s, es[0], u);
      StepKeeps(m, st, isn, s, es[0]);
      Stays(m, st, isn, Next(m, st, isn, s, es[0]), es[1..], s', u);
    }
  }

  lemma {:induction false} TakenStays(m: Mode, st: Stream, isn: nat, s: Sys, es: seq<Event>, s': Sys, u: nat)
    requires SysInv(m, st, isn, s) && InSequence(st, isn) && m.size <= SEQ_NO_TH && Leads(m, st, isn, s, es, s')
    requires Takes(m, st, isn, s, es, u)
    ensures Gone(s', u) || StoredIn(s', u)
    decreases |es|
  {
    var s1 := Next(m, st, isn, s, es[0]);
    StepKeeps(m, st, isn, s, es[0]);
    if es[0].Arrive? && es[0].u == u && u < s.base + m.size - 1 {
      EventLaw(m, st, isn, s, es[0], u);
      Stays(m, st, isn, s1, es[1..], s', u);
    } else {
      TakenStays(m, st, isn, s1, es[1..], s', u);
    }
  }

  ghost predicate AllTaken(m: Mode, st: Stream, isn: nat, es: seq<Event>) {
    forall u: nat :: u < |st| ==> Takes(m, st, isn, InitSys(isn), es, u)
  }

  /** Whoever calls readMessage gets nothing. */
  ghost predicate NothingToRead(m: Mode, s: State) {
    m.size >= 1 && |s.w| <= MAX_SEQ_NO && forall len: nat :: ReadMessage(m, s, len) == (s, [])
  }

  lemma {:induction false} AllTakenArrived(m: Mode, st: Stream, isn: nat, es: seq<Event>, s: Sys)
    requires 1 <= m.size <= SEQ_NO_TH && InSequence(st, isn) && Leads(m, st, isn, InitSys(isn), es, s)
    requires AllTaken(m, st, isn, es) && s.dropped == {}
    ensures AllArrived(st, s)
  {
    InitKeeps(m, st, isn);
    forall u: nat | u < |st| ensures Gone(s, u) || StoredIn(s, u) {
      TakenStays(m, st, isn, InitSys(isn), es, s, u);
    }
  }

  /** A read that finds a message changes the buffer. */
  lemma {:induction false} ReadingChanges(m: Mode, st: Stream, isn: nat, s: Sys)
    requires Good(m, st, isn, s) && InSequence(st, isn) && m.msgApi && m.size <= SEQ_NO_TH && ReadOffset(s.rcv) >= 0
    ensures ReadMessage(m, s.rcv, 0).0 != s.rcv
  {
    var s' := Next(m, st, isn, s, ReadMsg(0));
    var lo := s.base + ReadOffset(s.rcv);
    TakesWhole(m, st, isn, s, 0);
    SpanMoves(true, s.rcv.w, ReadOffset(s.rcv));
    NotBoth(s, lo);
    assert Gone(s', lo) && !Gone(s, lo);
  }

  lemma {:induction false} NothingIsOffset(m: Mode, st: Stream, isn: nat, s: Sys)
    requires Good(m, st, isn, s) && InSequence(st, isn) && m.msgApi && m.size <= SEQ_NO_TH
    requires NothingToRead(m, s.rcv)
    ensures ReadOffset(s.rcv) < 0
  {
    if ReadOffset(s.rcv) >= 0 {
      ReadingChanges(m, st, isn, s);
    }
  }

  /** After any run in which every packet arrived inside the capacity and nothing was dropped, once readMessage gives
      nothing more: every message that may be read out of order was read, and everything was read exactly if the
      frontier is where a full scan would put it. */
  lemma {:induction false} ReadInTheEnd(m: Mode, st: Stream, isn: nat, es: seq<Event>, s: Sys)
    requires 1 <= m.size <= SEQ_NO_TH && InSequence(st, isn) && WellFormed(st) && Finished(st) && m.OutOfOrder()
    requires Leads(m, st, isn, InitSys(isn), es, s) && AllTaken(m, st, isn, es) && s.dropped == {}
    requires NothingToRead(m, s.rcv)
    ensures forall u: nat :: u < |st| && !st[u].inOrder ==> WasRead(s, u)
    ensures (forall u: nat :: u < |st| ==> WasRead(s, u)) <==> FrontierIsScan(m, s.rcv)
  {
    InitGood(m, st, isn);
    RunKeepsGood(m, st, isn, InitSys(isn), es, s);
    AllTakenArrived(m, st, isn, es, s);
    NothingIsOffset(m, st, isn, s);
    forall u: nat | u < |st| && !st[u].inOrder ensures WasRead(s, u) {
      UnorderedRead(m, st, isn, s, u);
    }
    AllReadIff(m, st, isn, s);
  }

  // ----- messages that are all in order

  /** All is read in order: no filler is ever made. */
  ghost predicate InLine(m: Mode, s: Sys) {
    FrontierIsScan(m, s.rcv) && s.rcv.ooo < 0 && forall i :: 0 <= i < |s.rcv.w| ==> !s.rcv.w[i].IsFiller()
  }

  lemma ArriveInLine(m: Mode, st: Stream, isn: nat, s: Sys, u: nat, id: nat)
    requires Good(m, st, isn, s) && InLine(m, s) && Allowed(st, s, Arrive(u, id)) && st[u].inOrder
    ensures InLine(m, s.(rcv := Insert(m, s.rcv, Unit(id, st[u])).0))
  {
    InsertKeepsInv(m, s.rcv, Unit(id, st[u]));
  }

  lemma ReadInLine(m: Mode, st: Stream, isn: nat, s: Sys, room: nat)
    requires Good(m, st, isn, s) && InLine(m, s) && m.OutOfOrder() && ReadOffset(s.rcv) >= 0
    requires forall i :: 0 <= i < |s.rcv.w| && s.rcv.w[i].Has() ==> s.rcv.w[i].Pkt().inOrder
    ensures InLine(m, ReadSys(m, s, ReadOffset(s.rcv), room))
  {
    var w := s.rcv.w;
    var e := SpanEnd(true, w, 0);
    ReadOffsetGood(m, s.rcv);
    assert ReadOffset(s.rcv) == 0;
    ReadFirstFrontierIff(m, s.rcv);
    assert LeadingFillers(w[e..]) == 0;
    var s' := ReadSys(m, s, 0, room).rcv;
    assert s'.w == w[e..];
    assert forall k :: !UnorderedAt(s'.w, k);
    SearchOooNone(s'.w, 0, -1, -1);
  }

  /** A search over ordered packets finds nothing. */
  lemma {:induction false} SearchOooNone(w: Window, k: nat, first: int, msgno: int)
    requires k <= |w| && forall i :: 0 <= i < |w| && w[i].Has() ==> w[i].Pkt().inOrder
    ensures SearchOoo(w, k, first, msgno) == -1
    decreases |w| - k
  {
    if k < |w| {
      SearchOooNone(w, k + 1, -1, -1);
    }
  }

  ghost predicate OnlyReads(es: seq<Event>) {
    forall i :: 0 <= i < |es| ==> es[i].Arrive? || es[i].ReadMsg?
  }

  lemma {:induction false} RunInLine(m: Mode, st: Stream, isn: nat, s: Sys, es: seq<Event>, s': Sys)
    requires Good(m, st, isn, s) && InLine(m, s) && InSequence(st, isn) && WellFormed(st)
    requires m.OutOfOrder() && m.size <= SEQ_NO_TH && OnlyReads(es) && Leads(m, st, isn, s, es, s')
    requires forall u :: 0 <= u < |st| ==> st[u].inOrder
    ensures InLine(m, s')
    decreases |es|
  {
    if es != [] {
      StepKeepsGood(m, st, isn, s, es[0]);
      match es[0] {
        case Arrive(u, id) => ArriveInLine(m, st, isn, s, u, id);
        case ReadMsg(len) =>
          ReadMsgIs(m, s, len);
          if ReadOffset(s.rcv) >= 0 {
            ReadInLine(m, st, isn, s, len);
          }
      }
      RunInLine(m, st, isn, Next(m, st, isn, s, es[0]), es[1..], s');
    }
  }

  /** Arrivals and reads drop nothing. */
  lemma {:induction false} NothingDropped(m: Mode, st: Stream, isn: nat, s: Sys, es: seq<Event>, s': Sys)
    requires Leads(m, st, isn, s, es, s') && OnlyReads(es)
    ensures s'.dropped == s.dropped
    decreases |es|
  {
    if es != [] {
      NothingDropped(m, st, isn, Next(m, st, isn, s, es[0]), es[1..], s');
    }
  }

  /** If all messages are to be read in order, every packet arrives inside the capacity and nothing is dropped,
      everything was read once readMessage gives nothing more. */
  lemma {:induction false} OrderedAllRead(m: Mode, st: Stream, isn: nat, es: seq<Event>, s: Sys)
    requires 1 <= m.size <= SEQ_NO_TH && InSequence(st, isn) && WellFormed(st) && Finished(st) && m.OutOfOrder()
    requires Leads(m, st, isn, InitSys(isn), es, s) && OnlyReads(es) && AllTaken(m, st, isn, es)
    requires NothingToRead(m, s.rcv)
    requires forall u :: 0 <= u < |st| ==> st[u].inOrder
    ensures forall u: nat :: u < |st| ==> WasRead(s, u)
  {
    InitGood(m, st, isn);
    RunInLine(m, st, isn, InitSys(isn), es, s);
    NothingDropped(m, st, isn, InitSys(isn), es, s);
    ReadInTheEnd(m, st, isn, es, s);
  }
}
