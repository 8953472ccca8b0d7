/** What whole runs deliver, when the packets form a well-formed stream of messages and may be read out of order. */
module RcvDelivery {
  import opened SeqNo
  import opened Packets
  import opened RcvWindow
  import opened RcvWindowInvariant
  import opened RcvMessages
  import opened RcvIndex
  import opened RcvRun

  /** Messages follow each other: the packet after a last one is a first one, and all packets of a message carry
      one number and one order flag. */
  ghost predicate WellFormed(st: Stream) {
    forall i :: 0 <= i && i + 1 < |st| ==>
      && (st[i].isLast <==> st[i + 1].isFirst)
      && (!st[i].isLast ==> st[i].msgno == st[i + 1].msgno && st[i].inOrder == st[i + 1].inOrder)
  }

  /** The packets `lo` up to `hi` are one message. */
  ghost predicate Whole(st: Stream, lo: nat, hi: nat) {
    && lo < hi <= |st|
    && st[lo].isFirst
    && st[hi - 1].isLast
    && forall i :: lo <= i < hi - 1 ==> !st[i].isLast
  }

  /** A read delivered one whole message, as far as it fitted. */
  ghost predicate DeliversMessage(st: Stream, d: Delivery) {
    && Whole(st, d.lo, d.hi)
    && var full := Payloads(st[d.lo..d.hi]); d.data == full[..Min(d.room, |full|)]
  }

  /** Every read delivered a message, and what is flagged to be in order came before all later ones. */
  ghost predicate LogGood(st: Stream, s: Sys) {
    && (forall i :: 0 <= i < |s.log| ==> DeliversMessage(st, s.log[i]))
    && (forall i :: 0 <= i < |s.log| && st[s.log[i].lo].inOrder ==> s.log[i].hi <= s.base)
    && (forall i, j :: 0 <= i < j < |s.log| && st[s.log[i].lo].inOrder ==> s.log[i].hi <= s.log[j].lo)
  }

  ghost predicate Good(m: Mode, st: Stream, isn: nat, s: Sys) {
    SysInv(m, st, isn, s) && IndexGood(s.rcv) && LogGood(st, s)
  }

  lemma MatchedCoherent(st: Stream, s: Sys)
    requires WellFormed(st) && Matches(st, s)
    ensures Coherent(s.rcv.w)
  {
    var w := s.rcv.w;
    forall i | 0 <= i && i + 1 < |w| && w[i].Has() && w[i + 1].Has()
      ensures (w[i].Pkt().isLast <==> w[i + 1].Pkt().isFirst)
      ensures !w[i].Pkt().isLast ==>
                w[i].Pkt().msgno == w[i + 1].Pkt().msgno && w[i].Pkt().inOrder == w[i + 1].Pkt().inOrder
    {
      assert w[i].Pkt() == st[s.base + i] && w[i + 1].Pkt() == st[s.base + i + 1];
    }
  }

  /** Where the next read begins there is a complete message, and it may be read out of order unless it is first. */
  lemma ReadOffsetGood(m: Mode, s: State)
    requires Inv(m, s) && m.OutOfOrder() && OooSound(s) && ReadOffset(s) >= 0
    ensures var r := ReadOffset(s);
            && MessageAt(true, s.w, r)
            && (r > 0 ==> s.frontier == 0 && r == s.ooo)
            && (s.frontier == 0 ==> UnorderedAt(s.w, r))
  {
  }

  lemma DropAllKeepsIndex(m: Mode, s: State)
    requires Inv(m, s) && m.OutOfOrder() && IndexGood(s) && Coherent(DropAll(m, s).0.w)
    ensures IndexGood(DropAll(m, s).0)
  {
    if |s.w| > 0 {
      DropUpToKeepsIndex(m, s, IncSeq(s.startSeq, |s.w|));
    }
  }

  lemma ReadKeepsIndex(m: Mode, st: Stream, isn: nat, s: Sys, len: nat)
    requires Inv(m, s.rcv) && m.OutOfOrder() && IndexGood(s.rcv) && ReadOffset(s.rcv) >= 0
    requires Coherent(ReadSys(m, s, ReadOffset(s.rcv), len).rcv.w)
    ensures IndexGood(ReadSys(m, s, ReadOffset(s.rcv), len).rcv)
  {
    ReadOffsetGood(m, s.rcv);
    ReadAtKeepsIndex(m, s.rcv, ReadOffset(s.rcv));
  }

  lemma DropToKeepsIndex(m: Mode, isn: nat, s: Sys, u: nat)
    requires Inv(m, s.rcv) && m.OutOfOrder() && IndexGood(s.rcv)
    requires Coherent(DropToSys(m, isn, s, u).rcv.w)
    ensures IndexGood(DropToSys(m, isn, s, u).rcv)
  {
    DropUpToKeepsIndex(m, s.rcv, Wrap(isn + u));
  }

  lemma StepKeepsIndex(m: Mode, st: Stream, isn: nat, s: Sys, e: Event)
    requires Inv(m, s.rcv) && Allowed(st, s, e) && m.OutOfOrder() && IndexGood(s.rcv)
    requires Coherent(Next(m, st, isn, s, e).rcv.w)
    ensures IndexGood(Next(m, st, isn, s, e).rcv)
  {
    match e
    case Arrive(u, id) => InsertKeepsIndex(m, s.rcv, Unit(id, st[u]));
    case ReadMsg(len) =>
      ReadMsgIs(m, s, len);
      if ReadOffset(s.rcv) >= 0 {
        ReadKeepsIndex(m, st, isn, s, len);
      }
    case DropTo(u) => DropToKeepsIndex(m, isn, s, u);
    case DropEverything => DropAllKeepsIndex(m, s.rcv);
    case DropMsg(c) => DropMessageKeepsIndex(m, s.rcv, c);
  }

  /** What is taken from a complete message at offset `r` is that message of the stream. */
  lemma TakenIsMessage(st: Stream, s: Sys, r: nat, room: nat)
    requires Matches(st, s) && r < |s.rcv.w| && MessageAt(true, s.rcv.w, r)
    ensures DeliversMessage(st, Delivered(s, r, room))
  {
    var w := s.rcv.w;
    var e := SpanEnd(true, w, r);
    SpanMoves(true, w, r);
    SpanShape(true, w, r);
    forall i | r <= i < e ensures s.base + i < |st| && w[i].Pkt() == st[s.base + i] {
    }
    assert w[e - 1].Pkt() == st[s.base + e - 1];
    assert Taken(w, r) == st[s.base + r..s.base + e];
    forall i | s.base + r <= i < s.base + e - 1 ensures !st[i].isLast {
      assert w[i - s.base].Pkt() == st[i];
    }
  }

  lemma LogGrows(st: Stream, s: Sys, s': Sys, d: Delivery)
    requires LogGood(st, s) && DeliversMessage(st, d) && s'.log == s.log + [d]
    requires s.base <= s'.base && s.base <= d.lo
    requires st[d.lo].inOrder ==> d.hi <= s'.base
    ensures LogGood(st, s')
  {
    assert forall i :: 0 <= i < |s.log| ==> s'.log[i] == s.log[i];
  }

  lemma ReadKeepsLog(m: Mode, st: Stream, s: Sys, room: nat)
    requires Inv(m, s.rcv) && Matches(st, s) && m.OutOfOrder() && OooSound(s.rcv) && LogGood(st, s)
    requires ReadOffset(s.rcv) >= 0
    ensures LogGood(st, ReadSys(m, s, ReadOffset(s.rcv), room))
  {
    var r := ReadOffset(s.rcv);
    var s' := ReadSys(m, s, r, room);
    ReadOffsetGood(m, s.rcv);
    TakenIsMessage(st, s, r, room);
    ReadShape(m, s, r, room);
    assert s.rcv.w[r].Pkt() == st[s.base + r];
    LogGrows(st, s, s', Delivered(s, r, room));
  }

  lemma StepKeepsGood(m: Mode, st: Stream, isn: nat, s: Sys, e: Event)
    requires Good(m, st, isn, s) && InSequence(st, isn) && WellFormed(st) && Allowed(st, s, e)
    requires m.OutOfOrder() && m.size <= SEQ_NO_TH
    ensures Good(m, st, isn, Next(m, st, isn, s, e))
  {
    var s' := Next(m, st, isn, s, e);
    StepKeeps(m, st, isn, s, e);
    MatchedCoherent(st, s');
    StepKeepsIndex(m, st, isn, s, e);
    if e.ReadMsg? {
      ReadMsgIs(m, s, e.len);
    }
    if e.ReadMsg? && ReadOffset(s.rcv) >= 0 {
      ReadKeepsLog(m, st, s, e.len);
    } else {
      assert s'.log == s.log && s'.base >= s.base;
    }
  }

  // ----- runs

  /** The events lead from `s` to `s'`, each of them allowed when it happens. */
  ghost predicate Leads(m: Mode, st: Stream, isn: nat, s: Sys, es: seq<Event>, s': Sys)
    decreases |es|
  {
    if es == [] then s == s'
    else Inv(m, s.rcv) && Allowed(st, s, es[0]) && Leads(m, st, isn, Next(m, st, isn, s, es[0]), es[1..], s')
  }

  lemma {:induction false} RunKeeps(m: Mode, st: Stream, isn: nat, s: Sys, es: seq<Event>, s': Sys)
    requires SysInv(m, st, isn, s) && InSequence(st, isn) && m.size <= SEQ_NO_TH
    requires Leads(m, st, isn, s, es, s')
    ensures SysInv(m, st, isn, s')
    decreases |es|
  {
    if es != [] {
      StepKeeps(m, st, isn, s, es[0]);
      RunKeeps(m, st, isn, Next(m, st, isn, s, es[0]), es[1..], s');
    }
  }

  lemma {:induction false} RunKeepsGood(m: Mode, st: Stream, isn: nat, s: Sys, es: seq<Event>, s': Sys)
    requires Good(m, st, isn, s) && InSequence(st, isn) && WellFormed(st) && m.OutOfOrder() && m.size <= SEQ_NO_TH
    requires Leads(m, st, isn, s, es, s')
    ensures Good(m, st, isn, s')
    decreases |es|
  {
    if es != [] {
      StepKeepsGood(m, st, isn, s, es[0]);
      RunKeepsGood(m, st, isn, Next(m, st, isn, s, es[0]), es[1..], s');
    }
  }

  lemma InitGood(m: Mode, st: Stream, isn: nat)
    requires 1 <= m.size < INT_MAX
    ensures Good(m, st, isn, InitSys(isn))
  {
    InitKeeps(m, st, isn);
  }

  /** At most once: whatever arrives, in whatever order and however often, and whatever is read or dropped in
      between, no packet is read twice, none is read and given up, and a packet that was read or given up is
      not stored. */
  lemma AtMostOnce(m: Mode, st: Stream, isn: nat, es: seq<Event>, s': Sys)
    requires 1 <= m.size <= SEQ_NO_TH && InSequence(st, isn) && Leads(m, st, isn, InitSys(isn), es, s')
    ensures forall i, j :: 0 <= i < j < |s'.log| ==> Disjoint(s'.log[i], s'.log[j])
    ensures forall i, u :: 0 <= i < |s'.log| && s'.log[i].lo <= u < s'.log[i].hi ==> u !in s'.dropped
    ensures forall i, u :: 0 <= i < |s'.log| && s'.log[i].lo <= u < s'.log[i].hi ==> Gone(s', u)
    ensures forall u :: u in s'.dropped ==> Gone(s', u)
    ensures forall k :: 0 <= k < |s'.rcv.w| && s'.rcv.w[k].Has() ==> !Gone(s', s'.base + k)
  {
    InitKeeps(m, st, isn);
    RunKeeps(m, st, isn, InitSys(isn), es, s');
    assert AllConsistent(s'.rcv.w);
    assert forall i, u: nat :: 0 <= i < |s'.log| && s'.log[i].lo <= u < s'.log[i].hi ==> WasRead(s', u);
  }

  /** What arrives from a well-formed stream, in whatever order and however often, is read as whole messages,
      and a message flagged to be in order is read before every later one. */
  lemma MessagesArriveWhole(m: Mode, st: Stream, isn: nat, es: seq<Event>, s': Sys)
    requires 1 <= m.size <= SEQ_NO_TH && InSequence(st, isn) && WellFormed(st) && m.OutOfOrder()
    requires Leads(m, st, isn, InitSys(isn), es, s')
    ensures LogGood(st, s')
    ensures OooSound(s'.rcv) && OooComplete(s'.rcv)
  {
    InitGood(m, st, isn);
    RunKeepsGood(m, st, isn, InitSys(isn), es, s');
  }
}
