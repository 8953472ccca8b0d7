/** Whole runs of the receive buffer, fed from one stream of packets in any order.

    Packets and positions are named by unbounded numbers here: the packet with number u carries the wrapped
    sequence number of isn + u. A run records what was read and what was given up.
 */
module RcvRun {
  import opened SeqNo
  import opened Packets
  import opened RcvWindow
  import opened RcvWindowInvariant
  import opened RcvMessages
  import opened RcvIndex

  type Stream = seq<Packet>

  /** One read: the packets `lo` up to but not including `hi`, into `room` bytes, which then held `data`. */
  datatype Delivery = Delivery(lo: nat, hi: nat, room: nat, data: seq<Byte>)

  /** `base` is the number of the start position, `log` holds the reads in their order, and `dropped` the numbers
      given up. */
  datatype Sys = Sys(rcv: State, base: nat, log: seq<Delivery>, dropped: set<nat>)

  datatype Event =
    | Arrive(u: nat, id: nat)
    | ReadMsg(len: nat)
    | DropTo(u: nat)
    | DropEverything
    | DropMsg(choice: Choice)

  /** The packets of the stream are numbered without gaps. */
  ghost predicate InSequence(st: Stream, isn: nat) {
    forall u :: 0 <= u < |st| ==> st[u].seqno == Wrap(isn + u)
  }

  function InitSys(isn: nat): Sys {
    Sys(State([], Wrap(isn), 0, -1, 0, 0, 0), 0, [], {})
  }

  /** Packets that arrive belong to the stream, and numbers that are compared lie closer than half the range. */
  ghost predicate Allowed(st: Stream, s: Sys, e: Event) {
    match e
    case Arrive(u, _) => u < |st| && Abs(u - s.base) < SEQ_NO_TH
    case DropTo(u) => Abs(u - s.base) < SEQ_NO_TH
    case _ => true
  }

  /** A position is gone if it was passed or holds a filler. */
  ghost predicate GoneIn(w: Window, base: nat, u: nat) {
    u < base || (u - base < |w| && w[u - base].IsFiller())
  }

  ghost predicate Gone(s: Sys, u: nat) {
    GoneIn(s.rcv.w, s.base, u)
  }

  /** The numbers given up when the choice is dropped: those that were not gone already. */
  ghost function GivenUp(s: Sys, c: Choice): set<nat> {
    set u: nat | s.base <= u < s.base + |s.rcv.w| && c.Picks(u - s.base, s.rcv.w[u - s.base]) && !Gone(s, u)
  }

  /** The numbers given up when the first `n` positions are passed. */
  ghost function Passed(s: Sys, n: nat): set<nat> {
    set u: nat | s.base <= u < s.base + n && !Gone(s, u)
  }

  /** Dropping the first `n` positions. */
  ghost function DropSys(m: Mode, s: Sys, n: nat, rcv': State): Sys
    requires m.size >= 1 && |s.rcv.w| <= MAX_SEQ_NO
  {
    var rest := s.rcv.w[Min(n, |s.rcv.w|)..];
    s.(rcv := rcv', base := s.base + n + LeadingFillers(rest), dropped := s.dropped + Passed(s, n))
  }

  /** What reading at offset `r` adds to the log. */
  ghost function Delivered(s: Sys, r: nat, room: nat): Delivery
    requires r < |s.rcv.w|
  {
    var data := Payloads(Taken(s.rcv.w, r));
    Delivery(s.base + r, s.base + SpanEnd(true, s.rcv.w, r), room, data[..Min(room, |data|)])
  }

  ghost function ReadSys(m: Mode, s: Sys, r: nat, room: nat): Sys
    requires m.size >= 1 && r < |s.rcv.w| <= MAX_SEQ_NO
  {
    var rcv' := ReadAt(m, s.rcv, r);
    s.(rcv := rcv', base := s.base + (|s.rcv.w| - |rcv'.w|), log := s.log + [Delivered(s, r, room)])
  }

  /** Where the next readMessage reads, or -1. */
  function ReadOffset(s: State): int {
    var r := if s.frontier > 0 then 0 else s.ooo;
    if r < 0 || r >= |s.w| || !s.w[r].Has() then -1 else r
  }

  /** One call of readMessage: the state and the bytes are what the call gives. */
  ghost function ReadMsgSys(m: Mode, s: Sys, len: nat): Sys
    requires m.size >= 1 && |s.rcv.w| <= MAX_SEQ_NO
  {
    var (rcv', data) := ReadMessage(m, s.rcv, len);
    var r := ReadOffset(s.rcv);
    if r < 0 then s.(rcv := rcv')
    else
      var d := Delivery(s.base + r, s.base + SpanEnd(true, s.rcv.w, r), len, data);
      s.(rcv := rcv', base := s.base + (|s.rcv.w| - |rcv'.w|), log := s.log + [d])
  }

  lemma ReadMsgIs(m: Mode, s: Sys, len: nat)
    requires m.size >= 1 && |s.rcv.w| <= MAX_SEQ_NO
    ensures ReadMsgSys(m, s, len) == if ReadOffset(s.rcv) < 0 then s else ReadSys(m, s, ReadOffset(s.rcv), len)
  {
  }

  ghost function DropToSys(m: Mode, isn: nat, s: Sys, u: nat): Sys
    requires m.size >= 1 && |s.rcv.w| <= MAX_SEQ_NO
  {
    var rcv' := DropUpTo(m, s.rcv, Wrap(isn + u)).0;
    if u <= s.base then s.(rcv := rcv') else DropSys(m, s, u - s.base, rcv')
  }

  ghost function DropMsgSys(m: Mode, s: Sys, c: Choice): Sys
    requires m.size >= 1 && |s.rcv.w| <= MAX_SEQ_NO
  {
    var rcv' := DropMessage(m, s.rcv, c).0;
    s.(rcv := rcv', base := s.base + (|s.rcv.w| - |rcv'.w|), dropped := s.dropped + GivenUp(s, c))
  }

  ghost function Next(m: Mode, st: Stream, isn: nat, s: Sys, e: Event): Sys
    requires Inv(m, s.rcv) && Allowed(st, s, e)
  {
    match e
    case Arrive(u, id) => s.(rcv := Insert(m, s.rcv, Unit(id, st[u])).0)
    case ReadMsg(len) => ReadMsgSys(m, s, len)
    case DropTo(u) => DropToSys(m, isn, s, u)
    case DropEverything => DropSys(m, s, |s.rcv.w|, DropAll(m, s.rcv).0)
    case DropMsg(c) => DropMsgSys(m, s, c)
  }

  // ----- what every step keeps

  ghost predicate WasRead(s: Sys, u: nat) {
    exists i :: 0 <= i < |s.log| && s.log[i].lo <= u < s.log[i].hi
  }

  /** The stored packets are those of the stream. */
  ghost predicate Matches(st: Stream, s: Sys) {
    forall k :: 0 <= k < |s.rcv.w| && s.rcv.w[k].Has() ==> s.base + k < |st| && s.rcv.w[k].Pkt() == st[s.base + k]
  }

  /** Packet `u` is stored. */
  ghost predicate StoredIn(s: Sys, u: nat) {
    s.base <= u < s.base + |s.rcv.w| && s.rcv.w[u - s.base].Has()
  }

  ghost predicate Disjoint(a: Delivery, b: Delivery) {
    a.hi <= b.lo || b.hi <= a.lo
  }

  /** Every number gone was read or given up, never both, and what was read was read once. */
  ghost predicate Accounted(s: Sys) {
    && (forall i :: 0 <= i < |s.log| ==> s.log[i].lo < s.log[i].hi)
    && (forall i, j :: 0 <= i < j < |s.log| ==> Disjoint(s.log[i], s.log[j]))
    && (forall u: nat :: Gone(s, u) <==> WasRead(s, u) || u in s.dropped)
    && (forall u: nat :: u in s.dropped ==> !WasRead(s, u))
  }

  /** What the unbounded numbers have to do with the buffer. */
  ghost predicate Numbers(st: Stream, isn: nat, s: Sys) {
    && s.rcv.startSeq == Wrap(isn + s.base)
    && Matches(st, s)
    && Accounted(s)
  }

  ghost predicate SysInv(m: Mode, st: Stream, isn: nat, s: Sys) {
    Inv(m, s.rcv) && Numbers(st, isn, s)
  }

  ghost predicate Sized(m: Mode, s: State) {
    m.size >= 1 && |s.w| <= MAX_SEQ_NO
  }

  lemma InitKeeps(m: Mode, st: Stream, isn: nat)
    requires 1 <= m.size < INT_MAX
    ensures SysInv(m, st, isn, InitSys(isn))
  {
  }

  /** Releasing fillers at the start changes nothing about what is gone. */
  lemma ReleaseGone(w: Window, base: nat, c: nat)
    requires c <= |w| && forall i :: 0 <= i < c ==> w[i].IsFiller()
    ensures forall u: nat :: GoneIn(w[c..], base + c, u) <==> GoneIn(w, base, u)
  {
    forall u: nat ensures GoneIn(w[c..], base + c, u) <==> GoneIn(w, base, u) {
      if base + c <= u < base + |w| {
        assert w[c..][u - base - c] == w[u - base];
      }
    }
  }

  /** Numbers that were not gone are given up. */
  lemma AccountDrop(s: Sys, s': Sys, given: set<nat>)
    requires Accounted(s) && s'.log == s.log && s'.dropped == s.dropped + given
    requires forall u: nat :: u in given ==> !Gone(s, u)
    requires forall u: nat :: Gone(s', u) <==> Gone(s, u) || u in given
    ensures Accounted(s')
  {
    assert forall u: nat :: WasRead(s', u) <==> WasRead(s, u);
  }

  /** A stretch of numbers that were not gone is read. */
  lemma AccountRead(s: Sys, s': Sys, v: Delivery)
    requires Accounted(s) && s'.log == s.log + [v] && s'.dropped == s.dropped && v.lo < v.hi
    requires forall u: nat :: v.lo <= u < v.hi ==> !Gone(s, u)
    requires forall u: nat :: Gone(s', u) <==> Gone(s, u) || v.lo <= u < v.hi
    ensures Accounted(s')
  {
    var n := |s.log|;
    forall u: nat ensures WasRead(s', u) <==> WasRead(s, u) || v.lo <= u < v.hi {
      if WasRead(s, u) {
        var i :| 0 <= i < n && s.log[i].lo <= u < s.log[i].hi;
        assert s'.log[i] == s.log[i];
      }
      if v.lo <= u < v.hi {
        assert s'.log[n] == v;
      }
    }
    forall i | 0 <= i < n ensures Disjoint(s'.log[i], v) {
      var a := s.log[i];
      assert s'.log[i] == a;
      var u := if a.lo <= v.lo then v.lo else a.lo;
      assert a.lo <= u < a.hi ==> WasRead(s, u);
    }
  }

  /** Storing a packet in an entry that is no filler changes nothing about what is gone. */
  lemma StoreGone(s: Sys, off: nat, u: Unit)
    requires off < |s.rcv.w| ==> !s.rcv.w[off].IsFiller()
    ensures forall x: nat :: GoneIn(Stored(s.rcv.w, off, u), s.base, x) <==> Gone(s, x)
  {
  }

  // ----- steps

  lemma ArriveParts(m: Mode, st: Stream, isn: nat, s: Sys, u: nat, unit: Unit)
    requires Inv(m, s.rcv) && s.rcv.startSeq == Wrap(isn + s.base) && Matches(st, s)
    requires u < |st| && Abs(u - s.base) < SEQ_NO_TH && unit.packet == st[u] && st[u].seqno == Wrap(isn + u)
    requires Insert(m, s.rcv, unit).1 == INSERTED
    ensures var s' := s.(rcv := Insert(m, s.rcv, unit).0);
            Matches(st, s') && forall x: nat :: Gone(s', x) <==> Gone(s, x)
  {
    OffsetIsDistance(isn + s.base, isn + u);
    var off := SeqOff(s.rcv.startSeq, st[u].seqno);
    assert off == u - s.base;
    assert Insert(m, s.rcv, unit).0.w == Stored(s.rcv.w, off, unit);
    StoreGone(s, off, unit);
  }

  lemma ArriveKeeps(m: Mode, st: Stream, isn: nat, s: Sys, u: nat, id: nat)
    requires SysInv(m, st, isn, s) && InSequence(st, isn) && Allowed(st, s, Arrive(u, id))
    ensures Numbers(st, isn, s.(rcv := Insert(m, s.rcv, Unit(id, st[u])).0))
  {
    var unit := Unit(id, st[u]);
    InsertKeepsInv(m, s.rcv, unit);
    if Insert(m, s.rcv, unit).1 == INSERTED {
      ArriveParts(m, st, isn, s, u, unit);
      AccountDrop(s, s.(rcv := Insert(m, s.rcv, unit).0), {});
    }
  }

  /** Passing the first `n` positions. */
  lemma PassGone(s: Sys, n: nat, rest: Window, u: nat)
    requires rest == s.rcv.w[Min(n, |s.rcv.w|)..]
    ensures GoneIn(rest, s.base + n, u) <==> Gone(s, u) || u in Passed(s, n)
  {
    if s.base + n <= u < s.base + |s.rcv.w| {
      assert rest[u - s.base - n] == s.rcv.w[u - s.base];
    }
  }

  /** A window that is a part of the old one, moved along with the base, matches too. */
  lemma PartMatches(st: Stream, s: Sys, s': Sys, d: nat)
    requires Matches(st, s) && s'.base == s.base + d
    requires forall i :: 0 <= i < |s'.rcv.w| && s'.rcv.w[i].Has() ==> d + i < |s.rcv.w| && s'.rcv.w[i] == s.rcv.w[d + i]
    ensures Matches(st, s')
  {
  }

  lemma DropSysAccounted(m: Mode, s: Sys, n: nat, rcv': State)
    requires Accounted(s) && Sized(m, s.rcv)
    requires var rest := s.rcv.w[Min(n, |s.rcv.w|)..]; rcv'.w == rest[LeadingFillers(rest)..]
    ensures Accounted(DropSys(m, s, n, rcv'))
  {
    var rest := s.rcv.w[Min(n, |s.rcv.w|)..];
    var s' := DropSys(m, s, n, rcv');
    ReleaseGone(rest, s.base + n, LeadingFillers(rest));
    forall u: nat ensures Gone(s', u) <==> Gone(s, u) || u in Passed(s, n) {
      PassGone(s, n, rest, u);
    }
    AccountDrop(s, s', Passed(s, n));
  }

  /** What is left of the window after its first `n` positions and the fillers behind them were passed; position `n`
      had number `u`. */
  ghost predicate LeftAfter(s: State, n: nat, u: nat, s': State) {
    var rest := s.w[Min(n, |s.w|)..];
    var c := LeadingFillers(rest);
    s'.w == rest[c..] && s'.startSeq == Wrap(u + c)
  }

  /** Dropping the first `n` positions, if the buffer's new state is what dropping makes of it. */
  lemma DropSysKeeps(m: Mode, st: Stream, isn: nat, s: Sys, n: nat, rcv': State)
    requires Numbers(st, isn, s) && Sized(m, s.rcv)
    requires LeftAfter(s.rcv, n, isn + s.base + n, rcv')
    ensures Numbers(st, isn, DropSys(m, s, n, rcv'))
  {
    var s' := DropSys(m, s, n, rcv');
    DropSysAccounted(m, s, n, rcv');
    PartMatches(st, s, s', s'.base - s.base);
    assert isn + s'.base == isn + s.base + n + LeadingFillers(s.rcv.w[Min(n, |s.rcv.w|)..]);
  }

  /** What dropping `n` positions does to window and start number. */
  lemma DropUpToShape(m: Mode, s: State, n: nat, u: nat, seqno: Seq)
    requires Sized(m, s)
    requires seqno == Wrap(u) && SeqOff(s.startSeq, seqno) == n > 0
    ensures LeftAfter(s, n, u, DropUpTo(m, s, seqno).0)
  {
    IncSeqWraps(u, LeadingFillers(s.w[Min(n, |s.w|)..]));
  }

  lemma DropForwardShape(m: Mode, s: State, start: nat, n: nat, target: nat)
    requires Sized(m, s) && s.startSeq == Wrap(start) && 0 < n < SEQ_NO_TH && target == start + n
    ensures LeftAfter(s, n, target, DropUpTo(m, s, Wrap(target)).0)
  {
    OffsetIsDistance(start, target);
    DropUpToShape(m, s, n, target, Wrap(target));
  }

  lemma DropForwardKeeps(m: Mode, st: Stream, isn: nat, s: Sys, n: nat, target: nat)
    requires Numbers(st, isn, s) && Sized(m, s.rcv)
    requires 0 < n < SEQ_NO_TH && target == isn + s.base + n
    ensures Numbers(st, isn, DropSys(m, s, n, DropUpTo(m, s.rcv, Wrap(target)).0))
  {
    DropForwardShape(m, s.rcv, isn + s.base, n, target);
    DropSysKeeps(m, st, isn, s, n, DropUpTo(m, s.rcv, Wrap(target)).0);
  }

  /** Nothing happens when the target is behind the start. */
  lemma DropBackward(m: Mode, s: State, start: nat, target: nat)
    requires Sized(m, s) && s.startSeq == Wrap(start) && target <= start && start - target < SEQ_NO_TH
    ensures DropUpTo(m, s, Wrap(target)).0 == s
  {
    OffsetIsDistance(start, target);
  }

  lemma DropToBehind(m: Mode, isn: nat, s: Sys, u: nat)
    requires Sized(m, s.rcv) && s.rcv.startSeq == Wrap(isn + s.base) && u <= s.base && s.base - u < SEQ_NO_TH
    ensures DropToSys(m, isn, s, u) == s
  {
    DropBackward(m, s.rcv, isn + s.base, isn + u);
  }

  lemma DropToAhead(m: Mode, isn: nat, s: Sys, u: nat)
    requires Sized(m, s.rcv) && u > s.base
    ensures DropToSys(m, isn, s, u) == DropSys(m, s, u - s.base, DropUpTo(m, s.rcv, Wrap(isn + u)).0)
  {
  }

  lemma DropToKeeps(m: Mode, st: Stream, isn: nat, s: Sys, u: nat)
    requires Numbers(st, isn, s) && Sized(m, s.rcv) && Abs(u - s.base) < SEQ_NO_TH
    ensures Numbers(st, isn, DropToSys(m, isn, s, u))
  {
    if u > s.base {
      DropForwardKeeps(m, st, isn, s, u - s.base, isn + u);
      DropToAhead(m, isn, s, u);
    } else {
      DropToBehind(m, isn, s, u);
    }
  }

  lemma DropAllShape(m: Mode, s: State, start: nat)
    requires Sized(m, s) && s.startSeq == Wrap(start) && |s.w| < SEQ_NO_TH
    ensures LeftAfter(s, |s.w|, start + |s.w|, DropAll(m, s).0)
  {
    if |s.w| > 0 {
      IncSeqWraps(start, |s.w|);
      DropForwardShape(m, s, start, |s.w|, start + |s.w|);
    }
  }

  lemma DropEverythingKeeps(m: Mode, st: Stream, isn: nat, s: Sys)
    requires Numbers(st, isn, s) && Sized(m, s.rcv) && |s.rcv.w| < SEQ_NO_TH
    ensures Numbers(st, isn, DropSys(m, s, |s.rcv.w|, DropAll(m, s.rcv).0))
  {
    DropAllShape(m, s.rcv, isn + s.base);
    DropSysKeeps(m, st, isn, s, |s.rcv.w|, DropAll(m, s.rcv).0);
  }

  lemma PickGone(s: Sys, c: Choice, w1: Window, u: nat)
    requires w1 == DropChosen(s.rcv.w, c, |s.rcv.w|)
    ensures GoneIn(w1, s.base, u) <==> Gone(s, u) || u in GivenUp(s, c)
  {
  }

  lemma DropMsgAccounted(m: Mode, s: Sys, s': Sys, c: Choice, n: nat)
    requires Accounted(s) && n <= |s.rcv.w|
    requires s'.log == s.log && s'.dropped == s.dropped + GivenUp(s, c) && s'.base == s.base + n
    requires var w1 := DropChosen(s.rcv.w, c, |s.rcv.w|); n == LeadingFillers(w1) && s'.rcv.w == w1[n..]
    ensures Accounted(s')
  {
    var w1 := DropChosen(s.rcv.w, c, |s.rcv.w|);
    ReleaseGone(w1, s.base, n);
    forall u: nat ensures Gone(s', u) <==> Gone(s, u) || u in GivenUp(s, c) {
      PickGone(s, c, w1, u);
    }
    AccountDrop(s, s', GivenUp(s, c));
  }

  lemma DropMsgKeeps(m: Mode, st: Stream, isn: nat, s: Sys, c: Choice)
    requires Numbers(st, isn, s) && Sized(m, s.rcv)
    ensures Numbers(st, isn, DropMsgSys(m, s, c))
  {
    var w1 := DropPicked(m, s.rcv, c).w;
    var n := LeadingFillers(w1);
    var s' := DropMsgSys(m, s, c);
    assert s'.rcv.w == w1[n..] && s'.base == s.base + n;
    IncSeqWraps(isn + s.base, n);
    assert isn + s.base + n == isn + s'.base;
    DropMsgAccounted(m, s, s', c, n);
    PartMatches(st, s, s', n);
  }

  /** Taking a stretch of packets from the start, or from the middle, makes just them gone. */
  lemma TakeFrontGone(w: Window, base: nat, e: nat, u: nat)
    requires e <= |w| && forall i :: 0 <= i < e ==> w[i].Has() && w[i].Consistent()
    ensures GoneIn(w[e..], base + e, u) <==> GoneIn(w, base, u) || base <= u < base + e
    ensures base <= u < base + e ==> !GoneIn(w, base, u)
  {
    if base + e <= u < base + |w| {
      assert w[e..][u - base - e] == w[u - base];
    }
  }

  lemma TakeMiddleGone(w: Window, base: nat, r: nat, e: nat, u: nat)
    requires r <= e <= |w| && forall i :: r <= i < e ==> w[i].Has() && w[i].Consistent()
    ensures GoneIn(w[..r] + Reads(e - r) + w[e..], base, u) <==> GoneIn(w, base, u) || base + r <= u < base + e
    ensures base + r <= u < base + e ==> !GoneIn(w, base, u)
  {
    var w1 := w[..r] + Reads(e - r) + w[e..];
    if base <= u < base + |w| {
      var i := u - base;
      assert w1[i] == if r <= i < e then READ_ENTRY else w[i];
    }
  }

  /** Where the packets taken from offset `r` have left the window and the base. */
  lemma TakeGone(m: Mode, s: Sys, r: nat, w1: Window, base1: nat, u: nat)
    requires Sized(m, s.rcv) && r < |s.rcv.w| && AllConsistent(s.rcv.w)
    requires w1 == TakeAt(m, s.rcv, r).w && base1 == if r == 0 then s.base + SpanEnd(true, s.rcv.w, 0) else s.base
    ensures GoneIn(w1, base1, u) <==> Gone(s, u) || s.base + r <= u < s.base + SpanEnd(true, s.rcv.w, r)
    ensures s.base + r <= u < s.base + SpanEnd(true, s.rcv.w, r) ==> !Gone(s, u)
  {
    var e := SpanEnd(true, s.rcv.w, r);
    SpanShape(true, s.rcv.w, r);
    if r == 0 {
      TakeFrontGone(s.rcv.w, s.base, e, u);
    } else {
      TakeMiddleGone(s.rcv.w, s.base, r, e, u);
    }
  }

  /** Window and base after a read. */
  lemma ReadShape(m: Mode, s: Sys, r: nat, room: nat)
    requires Sized(m, s.rcv) && r < |s.rcv.w|
    ensures var w1 := TakeAt(m, s.rcv, r).w;
            var n := LeadingFillers(w1);
            var s' := ReadSys(m, s, r, room);
            && s'.rcv.w == w1[n..]
            && s'.base == (if r == 0 then s.base + SpanEnd(true, s.rcv.w, 0) else s.base) + n
  {
  }

  /** Taking packets and then releasing fillers, seen by what is gone. */
  lemma ReadGone(m: Mode, s: Sys, r: nat, room: nat)
    requires Sized(m, s.rcv) && r < |s.rcv.w| && AllConsistent(s.rcv.w)
    ensures var e := SpanEnd(true, s.rcv.w, r);
            && (forall u: nat :: Gone(ReadSys(m, s, r, room), u) <==> Gone(s, u) || s.base + r <= u < s.base + e)
            && (forall u: nat :: s.base + r <= u < s.base + e ==> !Gone(s, u))
  {
    var w1 := TakeAt(m, s.rcv, r).w;
    var n := LeadingFillers(w1);
    var base1 := if r == 0 then s.base + SpanEnd(true, s.rcv.w, 0) else s.base;
    ReadShape(m, s, r, room);
    ReleaseGone(w1, base1, n);
    forall u: nat
      ensures Gone(ReadSys(m, s, r, room), u) <==> Gone(s, u) || s.base + r <= u < s.base + SpanEnd(true, s.rcv.w, r)
      ensures s.base + r <= u < s.base + SpanEnd(true, s.rcv.w, r) ==> !Gone(s, u)
    {
      TakeGone(m, s, r, w1, base1, u);
    }
  }

  lemma ReadMatches(m: Mode, st: Stream, s: Sys, r: nat, room: nat)
    requires Matches(st, s) && Sized(m, s.rcv) && r < |s.rcv.w|
    ensures Matches(st, ReadSys(m, s, r, room))
  {
    var w := s.rcv.w;
    var e := SpanEnd(true, w, r);
    var w1 := TakeAt(m, s.rcv, r).w;
    var n := LeadingFillers(w1);
    var s' := ReadSys(m, s, r, room);
    assert s'.rcv.w == w1[n..];
    if r == 0 {
      PartMatches(st, s, s', e + n);
    } else {
      assert forall i :: 0 <= i < |w| ==> w1[i] == if r <= i < e then READ_ENTRY else w[i];
      PartMatches(st, s, s', n);
    }
  }

  lemma ReadSeq(m: Mode, isn: nat, s: Sys, r: nat, room: nat)
    requires Sized(m, s.rcv) && r < |s.rcv.w| && s.rcv.startSeq == Wrap(isn + s.base)
    ensures var s' := ReadSys(m, s, r, room); s'.rcv.startSeq == Wrap(isn + s'.base)
  {
    var e := if r == 0 then SpanEnd(true, s.rcv.w, 0) else 0;
    var n := LeadingFillers(TakeAt(m, s.rcv, r).w);
    IncSeqWraps(isn + s.base, e);
    IncSeqWraps(isn + s.base + e, n);
    assert isn + s.base + e + n == isn + ReadSys(m, s, r, room).base;
  }

  lemma ReadKeeps(m: Mode, st: Stream, isn: nat, s: Sys, r: nat, room: nat)
    requires Numbers(st, isn, s) && Sized(m, s.rcv) && AllConsistent(s.rcv.w)
    requires r < |s.rcv.w| && s.rcv.w[r].Has()
    ensures Numbers(st, isn, ReadSys(m, s, r, room))
  {
    SpanMoves(true, s.rcv.w, r);
    ReadGone(m, s, r, room);
    AccountRead(s, ReadSys(m, s, r, room), Delivered(s, r, room));
    ReadMatches(m, st, s, r, room);
    ReadSeq(m, isn, s, r, room);
  }

  lemma ReadMessageKeepsInv(m: Mode, s: State)
    requires Inv(m, s) && ReadOffset(s) >= 0
    ensures Inv(m, ReadAt(m, s, ReadOffset(s)))
  {
    ReadAtKeepsInv(m, s, ReadOffset(s));
  }

  lemma DropAllKeepsInv(m: Mode, s: State)
    requires Inv(m, s)
    ensures Inv(m, DropAll(m, s).0)
  {
    if |s.w| > 0 {
      DropUpToKeepsInv(m, s, IncSeq(s.startSeq, |s.w|));
    }
  }

  lemma StepKeepsInv(m: Mode, st: Stream, isn: nat, s: Sys, e: Event)
    requires Inv(m, s.rcv) && Allowed(st, s, e)
    ensures Inv(m, Next(m, st, isn, s, e).rcv)
  {
    match e
    case Arrive(u, id) => InsertKeepsInv(m, s.rcv, Unit(id, st[u]));
    case ReadMsg(len) =>
      ReadMsgIs(m, s, len);
      if ReadOffset(s.rcv) >= 0 {
        ReadMessageKeepsInv(m, s.rcv);
        assert Next(m, st, isn, s, e).rcv == ReadAt(m, s.rcv, ReadOffset(s.rcv));
      }
    case DropTo(u) =>
      DropUpToKeepsInv(m, s.rcv, Wrap(isn + u));
      assert Next(m, st, isn, s, e).rcv == DropUpTo(m, s.rcv, Wrap(isn + u)).0;
    case DropEverything =>
      DropAllKeepsInv(m, s.rcv);
      assert Next(m, st, isn, s, e).rcv == DropAll(m, s.rcv).0;
    case DropMsg(c) =>
      DropMessageKeepsInv(m, s.rcv, c);
      assert Next(m, st, isn, s, e).rcv == DropMessage(m, s.rcv, c).0;
  }

  lemma StepKeeps(m: Mode, st: Stream, isn: nat, s: Sys, e: Event)
    requires SysInv(m, st, isn, s) && InSequence(st, isn) && Allowed(st, s, e) && m.size <= SEQ_NO_TH
    ensures SysInv(m, st, isn, Next(m, st, isn, s, e))
  {
    StepKeepsInv(m, st, isn, s, e);
    match e
    case Arrive(u, id) => ArriveKeeps(m, st, isn, s, u, id);
    case ReadMsg(len) =>
      ReadMsgIs(m, s, len);
      if ReadOffset(s.rcv) >= 0 {
        ReadKeeps(m, st, isn, s, ReadOffset(s.rcv), len);
      }
    case DropTo(u) => DropToKeeps(m, st, isn, s, u);
    case DropEverything => DropEverythingKeeps(m, st, isn, s);
    case DropMsg(c) => DropMsgKeeps(m, st, isn, s, c);
  }
}
