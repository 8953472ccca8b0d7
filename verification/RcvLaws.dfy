/** What each operation of the receive buffer does to the packets stored, told from packet numbers, flags and message
    numbers alone. */
module RcvLaws {
  import opened SeqNo
  import opened Packets
  import opened RcvWindow
  import opened RcvWindowInvariant
  import opened RcvMessages
  import opened RcvIndex
  import opened RcvRun
  import opened RcvDelivery

  // ----- one arrival

  /** The entry at offset `off` is free: empty, or beyond the window. */
  ghost predicate Free(w: Window, off: nat) {
    off >= |w| || (!w[off].Has() && !w[off].IsFiller())
  }

  /** A packet is stored if and only if it lies inside the capacity and its entry is free; then that entry holds it
      and all others are as they were. Each refusal has its code, and changes nothing. */
  lemma InsertIs(m: Mode, s: State, u: Unit)
    requires Inv(m, s)
    ensures var off := SeqOff(s.startSeq, u.packet.seqno);
            var (s', code) := Insert(m, s, u);
            && (code == INSERTED <==> 0 <= off < m.size - 1 && Free(s.w, off))
            && (code == ALREADY_STORED <==> 0 <= off < m.size - 1 && !Free(s.w, off))
            && (code == BEFORE_START <==> off < 0)
            && (code == BEYOND_CAPACITY <==> off >= m.size - 1)
            && (code != INSERTED ==> s' == s)
            && (code == INSERTED ==>
                  && |s'.w| == (if off < |s.w| then |s.w| else off + 1)
                  && s'.w[off] == Entry(Some(u), Avail)
                  && (forall i :: 0 <= i < |s'.w| && i != off ==> s'.w[i] == if i < |s.w| then s.w[i] else EMPTY_ENTRY)
                  && s'.startSeq == s.startSeq && s'.notch == s.notch
                  && s'.pkts == s.pkts + 1 && s'.bytes == s.bytes + |u.packet.payload|)
  {
    var off := SeqOff(s.startSeq, u.packet.seqno);
    if 0 <= off < m.size - 1 {
      RefusedInside(s.w, off);
      assert off < |s.w| ==> s.w[off].Consistent();
    }
  }

  // ----- events, by numbers

  /** Number `x` lies inside the capacity. */
  ghost predicate Room(m: Mode, s: Sys, x: nat) {
    s.base <= x < s.base + m.size - 1
  }

  /** What a drop gives up. */
  ghost predicate Goes(st: Stream, s: Sys, e: Event, x: nat) {
    match e
    case DropTo(u) => s.base <= x < u
    case DropEverything => s.base <= x < s.base + |s.rcv.w|
    case DropMsg(ByMsgno(n)) => StoredIn(s, x) && x < |st| && st[x].msgno == n
    case DropMsg(ByRange(lo, hi)) =>
      && s.base + lo <= x < s.base + hi && s.base <= x < s.base + |s.rcv.w|
      && !(StoredIn(s, x) && x < |st| && st[x].isFirst && st[x].isLast)
    case _ => false
  }

  /** The read that was logged last holds `x`. */
  ghost predicate JustRead(s: Sys, s': Sys, x: nat) {
    |s'.log| == |s.log| + 1 && s'.log[|s.log|].lo <= x < s'.log[|s.log|].hi
  }

  /** Packet `x` is stored after a step exactly if it was stored before and is not gone. */
  ghost predicate Kept(s: Sys, s': Sys, x: nat) {
    StoredIn(s', x) <==> !Gone(s', x) && StoredIn(s, x)
  }

  /** Entries are left alone, become fillers, or are passed. */
  lemma StoredKept(s: Sys, s': Sys, d: nat, x: nat)
    requires AllConsistent(s'.rcv.w) && s'.base == s.base + d
    requires |s'.rcv.w| == if d <= |s.rcv.w| then |s.rcv.w| - d else 0
    requires forall i :: 0 <= i < |s'.rcv.w| ==> s'.rcv.w[i] == s.rcv.w[d + i] || s'.rcv.w[i].IsFiller()
    ensures Kept(s, s', x)
  {
    if s'.base <= x < s'.base + |s'.rcv.w| {
      var i := x - s'.base;
      assert s'.rcv.w[i].Consistent();
      assert s'.rcv.w[i] == s.rcv.w[d + i] || s'.rcv.w[i].IsFiller();
    }
  }

  /** One free entry is filled. */
  lemma StoredAt(s: Sys, s': Sys, off: nat, unit: Unit, x: nat)
    requires s'.base == s.base && Free(s.rcv.w, off) && AllConsistent(s.rcv.w)
    requires |s'.rcv.w| == if off < |s.rcv.w| then |s.rcv.w| else off + 1
    requires s'.rcv.w[off] == Entry(Some(unit), Avail)
    requires forall i :: 0 <= i < |s'.rcv.w| && i != off ==>
               s'.rcv.w[i] == if i < |s.rcv.w| then s.rcv.w[i] else EMPTY_ENTRY
    ensures Gone(s', x) <==> Gone(s, x)
    ensures StoredIn(s', x) <==> StoredIn(s, x) || x == s.base + off
  {
  }

  lemma NotBoth(s: Sys, x: nat)
    requires AllConsistent(s.rcv.w)
    ensures StoredIn(s, x) ==> !Gone(s, x)
    ensures Kept(s, s, x)
  {
    assert StoredIn(s, x) ==> s.rcv.w[x - s.base].Consistent();
  }

  lemma ArriveStores(m: Mode, st: Stream, isn: nat, s: Sys, u: nat, id: nat, x: nat)
    requires SysInv(m, st, isn, s) && InSequence(st, isn) && Allowed(st, s, Arrive(u, id))
    ensures var s' := Next(m, st, isn, s, Arrive(u, id));
            && (Gone(s', x) <==> Gone(s, x))
            && (StoredIn(s', x) <==> !Gone(s', x) && (StoredIn(s, x) || (x == u && Room(m, s, x))))
  {
    var unit := Unit(id, st[u]);
    var s' := Next(m, st, isn, s, Arrive(u, id));
    OffsetIsDistance(isn + s.base, isn + u);
    InsertIs(m, s.rcv, unit);
    if Insert(m, s.rcv, unit).1 == INSERTED {
      StoredAt(s, s', u - s.base, unit, x);
    } else {
      assert s' == s;
    }
    NotBoth(s, x);
  }

  /** Some positions and the fillers behind them are passed. */
  lemma DropSysStores(m: Mode, s: Sys, n: nat, rcv': State, u: nat, x: nat)
    requires m.size >= 1 && |s.rcv.w| <= MAX_SEQ_NO && LeftAfter(s.rcv, n, u, rcv') && AllConsistent(rcv'.w)
    ensures Kept(s, DropSys(m, s, n, rcv'), x)
  {
    var s' := DropSys(m, s, n, rcv');
    StoredKept(s, s', s'.base - s.base, x);
  }

  lemma AheadStores(m: Mode, s: Sys, n: nat, start: nat, target: nat, rcv': State, x: nat)
    requires Inv(m, s.rcv) && s.rcv.startSeq == Wrap(start)
    requires 0 < n < SEQ_NO_TH && target == start + n && rcv' == DropUpTo(m, s.rcv, Wrap(target)).0
    ensures Kept(s, DropSys(m, s, n, rcv'), x)
  {
    DropUpToKeepsInv(m, s.rcv, Wrap(target));
    DropForwardShape(m, s.rcv, start, n, target);
    DropSysStores(m, s, n, rcv', target, x);
  }

  lemma DropToStores(m: Mode, isn: nat, s: Sys, u: nat, x: nat)
    requires Inv(m, s.rcv) && s.rcv.startSeq == Wrap(isn + s.base) && Abs(u - s.base) < SEQ_NO_TH
    ensures Kept(s, DropToSys(m, isn, s, u), x)
  {
    if u > s.base {
      AheadStores(m, s, u - s.base, isn + s.base, isn + u, DropUpTo(m, s.rcv, Wrap(isn + u)).0, x);
      DropToAhead(m, isn, s, u);
    } else {
      DropToBehind(m, isn, s, u);
      NotBoth(s, x);
    }
  }

  lemma DropAllLeaves(m: Mode, s: State, start: nat, n: nat, target: nat, rcv': State)
    requires Inv(m, s) && s.startSeq == Wrap(start) && |s.w| == n < SEQ_NO_TH && target == start + n
    requires rcv' == DropAll(m, s).0
    ensures LeftAfter(s, n, target, rcv') && AllConsistent(rcv'.w)
  {
    DropAllKeepsInv(m, s);
    DropAllShape(m, s, start);
  }

  lemma DropMsgShape(m: Mode, s: Sys, c: Choice)
    requires m.size >= 1 && |s.rcv.w| <= MAX_SEQ_NO
    ensures var w1 := DropChosen(s.rcv.w, c, |s.rcv.w|);
            && DropMsgSys(m, s, c).rcv.w == w1[LeadingFillers(w1)..]
            && DropMsgSys(m, s, c).base == s.base + LeadingFillers(w1)
  {
  }

  lemma DropMsgStores(m: Mode, s: Sys, c: Choice, x: nat)
    requires m.size >= 1 && |s.rcv.w| <= MAX_SEQ_NO && AllConsistent(DropMsgSys(m, s, c).rcv.w)
    ensures Kept(s, DropMsgSys(m, s, c), x)
  {
    var w1 := DropChosen(s.rcv.w, c, |s.rcv.w|);
    var s' := DropMsgSys(m, s, c);
    DropMsgShape(m, s, c);
    PassedStores(s, s', w1, LeadingFillers(w1), x);
  }

  lemma PassedStores(s: Sys, s': Sys, w1: Window, d: nat, x: nat)
    requires AllConsistent(s'.rcv.w) && s'.base == s.base + d && d <= |w1| == |s.rcv.w| && s'.rcv.w == w1[d..]
    requires forall i :: 0 <= i < |w1| ==> w1[i] == s.rcv.w[i] || w1[i].IsFiller()
    ensures Kept(s, s', x)
  {
    StoredKept(s, s', d, x);
  }

  /** Entries before and after a read. */
  lemma ReadKept(m: Mode, s: Sys, r: nat, room: nat, i: nat)
    requires m.size >= 1 && r < |s.rcv.w| <= MAX_SEQ_NO
    ensures var s' := ReadSys(m, s, r, room);
            var d := s'.base - s.base;
            && 0 <= d && |s'.rcv.w| == |s.rcv.w| - d
            && (i < |s'.rcv.w| ==> s'.rcv.w[i] == s.rcv.w[d + i] || s'.rcv.w[i].IsFiller())
  {
    var w, e := s.rcv.w, SpanEnd(true, s.rcv.w, r);
    var w1 := TakeAt(m, s.rcv, r).w;
    ReadShape(m, s, r, room);
    assert r > 0 ==> forall k :: 0 <= k < |w| ==> w1[k] == if r <= k < e then READ_ENTRY else w[k];
  }

  lemma ReadStores(m: Mode, st: Stream, isn: nat, s: Sys, len: nat, x: nat)
    requires SysInv(m, st, isn, s) && InSequence(st, isn) && m.size <= SEQ_NO_TH
    ensures Kept(s, Next(m, st, isn, s, ReadMsg(len)), x)
  {
    ReadMsgIs(m, s, len);
    var r := ReadOffset(s.rcv);
    if r < 0 {
      NotBoth(s, x);
    } else {
      var s' := ReadSys(m, s, r, len);
      ReadAtKeepsInv(m, s.rcv, r);
      forall i | 0 <= i < |s'.rcv.w|
        ensures s'.rcv.w[i] == s.rcv.w[s'.base - s.base + i] || s'.rcv.w[i].IsFiller()
      {
        ReadKept(m, s, r, len, i);
      }
      ReadKept(m, s, r, len, 0);
      StoredKept(s, s', s'.base - s.base, x);
    }
  }

  /** What was read or given up is gone, so what comes to be gone was read or given up just now. */
  lemma GoneBy(s: Sys, s': Sys, given: set<nat>, x: nat)
    requires Accounted(s) && Accounted(s') && s'.dropped == s.dropped + given
    requires s'.log == s.log || (|s'.log| == |s.log| + 1 && s'.log[..|s.log|] == s.log)
    ensures Gone(s', x) <==> Gone(s, x) || x in given || JustRead(s, s', x)
  {
    if |s'.log| > |s.log| {
      LogAppend(s, s', x);
    } else {
      assert WasRead(s', x) <==> WasRead(s, x);
    }
  }

  lemma PickedGoes(st: Stream, s: Sys, c: Choice, x: nat)
    requires Matches(st, s) && AllConsistent(s.rcv.w)
    ensures x in GivenUp(s, c) || Gone(s, x) <==> Gone(s, x) || Goes(st, s, DropMsg(c), x)
  {
    if s.base <= x < s.base + |s.rcv.w| {
      assert s.rcv.w[x - s.base].Consistent();
    }
  }

  /** What is gone after an event. */
  lemma EventGone(m: Mode, st: Stream, isn: nat, s: Sys, e: Event, x: nat)
    requires SysInv(m, st, isn, s) && InSequence(st, isn) && Allowed(st, s, e) && m.size <= SEQ_NO_TH
    ensures var s' := Next(m, st, isn, s, e);
            Gone(s', x) <==> Gone(s, x) || Goes(st, s, e, x) || JustRead(s, s', x)
  {
    var s' := Next(m, st, isn, s, e);
    StepKeeps(m, st, isn, s, e);
    match e
    case Arrive(u, id) => ArriveStores(m, st, isn, s, u, id, x);
    case ReadMsg(len) =>
      ReadMsgIs(m, s, len);
      GoneBy(s, s', {}, x);
    case DropTo(u) => GoneBy(s, s', if u <= s.base then {} else Passed(s, u - s.base), x);
    case DropEverything => GoneBy(s, s', Passed(s, |s.rcv.w|), x);
    case DropMsg(c) =>
      GoneBy(s, s', GivenUp(s, c), x);
      PickedGoes(st, s, c, x);
  }

  lemma LogAppend(s: Sys, s': Sys, x: nat)
    requires |s'.log| == |s.log| + 1 && s'.log[..|s.log|] == s.log
    ensures WasRead(s', x) <==> WasRead(s, x) || JustRead(s, s', x)
  {
    if WasRead(s, x) {
      var i :| 0 <= i < |s.log| && s.log[i].lo <= x < s.log[i].hi;
      assert s'.log[i] == s.log[i];
    }
    if WasRead(s', x) && !JustRead(s, s', x) {
      var i :| 0 <= i < |s'.log| && s'.log[i].lo <= x < s'.log[i].hi;
      assert s.log[i] == s'.log[i];
    }
  }

  lemma DropStores(m: Mode, st: Stream, isn: nat, s: Sys, e: Event, x: nat)
    requires SysInv(m, st, isn, s) && InSequence(st, isn) && Allowed(st, s, e) && m.size <= SEQ_NO_TH
    requires e.DropTo? || e.DropEverything? || e.DropMsg?
    ensures Kept(s, Next(m, st, isn, s, e), x)
  {
    match e
    case DropTo(u) => DropToStores(m, isn, s, u, x);
    case DropEverything =>
      var n := |s.rcv.w|;
      var rcv' := DropAll(m, s.rcv).0;
      DropAllLeaves(m, s.rcv, isn + s.base, n, isn + s.base + n, rcv');
      DropSysStores(m, s, n, rcv', isn + s.base + n, x);
    case DropMsg(c) =>
      DropMessageKeepsInv(m, s.rcv, c);
      DropMsgStores(m, s, c, x);
  }

  /** What an event does, seen by numbers: which packets are gone after it, and that the packets stored after it are
      exactly those stored before, and the one that arrived inside the capacity, except what is gone. */
  lemma EventLaw(m: Mode, st: Stream, isn: nat, s: Sys, e: Event, x: nat)
    requires SysInv(m, st, isn, s) && InSequence(st, isn) && Allowed(st, s, e) && m.size <= SEQ_NO_TH
    ensures var s' := Next(m, st, isn, s, e);
            && (Gone(s', x) <==> Gone(s, x) || Goes(st, s, e, x) || JustRead(s, s', x))
            && (StoredIn(s', x) <==>
                  !Gone(s', x) && (StoredIn(s, x) || (e.Arrive? && e.u == x && Room(m, s, x))))
  {
    EventGone(m, st, isn, s, e, x);
    match e
    case Arrive(u, id) => ArriveStores(m, st, isn, s, u, id, x);
    case ReadMsg(len) => ReadStores(m, st, isn, s, len, x);
    case _ => DropStores(m, st, isn, s, e, x);
  }

  // ----- readMessage

  /** The message that a call took: where it lay in the stream, what was copied out, and what became of it. */
  ghost predicate TookMessage(st: Stream, s: Sys, s': Sys, len: nat, data: seq<Byte>, lo: nat, hi: nat) {
    && Whole(st, lo, hi)
    && (var full := Payloads(st[lo..hi]); data == full[..Min(len, |full|)])
    && (forall x: nat :: lo <= x < hi ==> StoredIn(s, x) && Gone(s', x))
    && (s.rcv.frontier > 0 ==> lo == s.base)
  }

  /** The two results of a call are the state after the read, and the bytes of one whole message of the stream, as far
      as they fit; or nothing is readable, no bytes are returned and nothing changes. */
  ghost predicate ReadsWhole(m: Mode, st: Stream, s: Sys, s': Sys, len: nat)
    requires m.size >= 1 && |s.rcv.w| <= MAX_SEQ_NO
  {
    var (rcv', data) := ReadMessage(m, s.rcv, len);
    && s'.rcv == rcv'
    && (|| (s' == s && data == [] && s.rcv.frontier == 0 && (m.OutOfOrder() ==> forall k :: !UnorderedAt(s.rcv.w, k)))
        || (|s'.log| == |s.log| + 1 && s'.log[..|s.log|] == s.log
            && var d := s'.log[|s.log|];
               d.room == len && d.data == data && TookMessage(st, s, s', len, data, d.lo, d.hi)))
  }

  /** Where the next read begins there is a complete message. */
  lemma ReadsAtMessage(m: Mode, s: State)
    requires Inv(m, s) && m.msgApi && (m.OutOfOrder() ==> OooSound(s)) && ReadOffset(s) >= 0
    ensures MessageAt(true, s.w, ReadOffset(s)) && (s.frontier > 0 ==> ReadOffset(s) == 0)
  {
  }

  lemma NoOffset(m: Mode, s: State)
    requires Inv(m, s) && (m.OutOfOrder() ==> IndexGood(s)) && ReadOffset(s) < 0
    ensures s.frontier == 0 && (m.OutOfOrder() ==> forall k :: !UnorderedAt(s.w, k))
  {
    ChainStored(m.msgApi, s.w, 0, s.frontier);
  }

  lemma {:induction false} TakesWhole(m: Mode, st: Stream, isn: nat, s: Sys, len: nat)
    requires SysInv(m, st, isn, s) && InSequence(st, isn) && m.size <= SEQ_NO_TH
    requires m.msgApi && (m.OutOfOrder() ==> OooSound(s.rcv)) && ReadOffset(s.rcv) >= 0
    ensures var r := ReadOffset(s.rcv);
            var d := Delivered(s, r, len);
            && Next(m, st, isn, s, ReadMsg(len)).log == s.log + [d]
            && TookMessage(st, s, Next(m, st, isn, s, ReadMsg(len)), len, d.data, d.lo, d.hi)
  {
    var r := ReadOffset(s.rcv);
    var w, e := s.rcv.w, SpanEnd(true, s.rcv.w, r);
    ReadsAtMessage(m, s.rcv);
    ReadMsgIs(m, s, len);
    TakenIsMessage(st, s, r, len);
    SpanShape(true, w, r);
    var s' := Next(m, st, isn, s, ReadMsg(len));
    forall x: nat | s.base + r <= x < s.base + e ensures StoredIn(s, x) && Gone(s', x) {
      EventGone(m, st, isn, s, ReadMsg(len), x);
    }
  }

  /** What a call of readMessage gives. */
  lemma {:induction false} ReadMessageLaw(m: Mode, st: Stream, isn: nat, s: Sys, len: nat)
    requires SysInv(m, st, isn, s) && InSequence(st, isn) && WellFormed(st) && m.size <= SEQ_NO_TH
    requires m.msgApi && (m.OutOfOrder() ==> IndexGood(s.rcv))
    ensures ReadsWhole(m, st, s, Next(m, st, isn, s, ReadMsg(len)), len)
  {
    ReadMsgIs(m, s, len);
    if ReadOffset(s.rcv) < 0 {
      NoOffset(m, s.rcv);
    } else {
      TakesWhole(m, st, isn, s, len);
    }
  }

  // ----- what calls return

  /** Dropping up to a number returns how many positions were passed. */
  lemma DropUpToReturns(m: Mode, s: State, start: nat, target: nat)
    requires Inv(m, s) && s.startSeq == Wrap(start) && Abs(target - start) < SEQ_NO_TH
    ensures DropUpTo(m, s, Wrap(target)).1 == if target > start then target - start else 0
  {
    OffsetIsDistance(start, target);
  }

  lemma DropAllReturns(m: Mode, s: State, start: nat)
    requires Inv(m, s) && s.startSeq == Wrap(start) && |s.w| < SEQ_NO_TH
    ensures DropAll(m, s).1 == |s.w|
  {
    IncSeqWraps(start, |s.w|);
    DropUpToReturns(m, s, start, start + |s.w|);
  }

  lemma {:induction false} CountIsSize(w: Window, c: Choice, k: nat, picked: set<nat>)
    requires k <= |w| && picked == set i: nat | i < k && c.Picks(i, w[i])
    ensures CountPicked(w, c, k) == |picked|
  {
    if k > 0 {
      var before := set i: nat | i < k - 1 && c.Picks(i, w[i]);
      CountIsSize(w, c, k - 1, before);
      assert picked == before + if c.Picks(k - 1, w[k - 1]) then {k - 1} else {};
    }
  }

  /** Dropping a message returns how many of its packets were stored. */
  lemma DropMessageReturns(m: Mode, s: State, n: nat)
    requires Inv(m, s)
    ensures DropMessage(m, s, ByMsgno(n)).1 == |set i: nat | i < |s.w| && s.w[i].Has() && s.w[i].Pkt().msgno == n|
  {
    var picked := set i: nat | i < |s.w| && s.w[i].Has() && s.w[i].Pkt().msgno == n;
    CountIsSize(s.w, ByMsgno(n), |s.w|, picked);
  }

  /** Dropping a range returns how many positions of it were not spared. */
  lemma DropRangeReturns(m: Mode, s: State, lo: nat, hi: nat)
    requires Inv(m, s) && hi <= |s.w|
    ensures DropMessage(m, s, ByRange(lo, hi)).1 ==
            |set i: nat | i < |s.w| && lo <= i < hi &&
               !(s.w[i].Has() && s.w[i].Pkt().isFirst && s.w[i].Pkt().isLast)|
  {
    var picked := set i: nat | i < |s.w| && lo <= i < hi &&
      !(s.w[i].Has() && s.w[i].Pkt().isFirst && s.w[i].Pkt().isLast);
    CountIsSize(s.w, ByRange(lo, hi), |s.w|, picked);
  }
}
