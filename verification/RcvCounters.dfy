/** What the packet and byte counters of the receive buffer count. */
module RcvCounters {
  import opened SeqNo
  import opened Packets
  import opened RcvWindow
  import opened RcvWindowInvariant
  import opened RcvRun
  import opened RcvDelivery

  function Weight(bytes: bool, e: Entry): nat {
    if !e.Has() then 0 else if bytes then |e.Pkt().payload| else 1
  }

  /** The number of stored packets, or their bytes. */
  function Held(bytes: bool, w: Window): nat {
    if w == [] then 0 else Weight(bytes, w[0]) + Held(bytes, w[1..])
  }

  lemma {:induction false} HeldAppend(bytes: bool, v: Window, w: Window)
    ensures Held(bytes, v + w) == Held(bytes, v) + Held(bytes, w)
  {
    if v == [] {
      assert v + w == w;
    } else {
      assert (v + w)[1..] == v[1..] + w;
      HeldAppend(bytes, v[1..], w);
    }
  }

  lemma HeldSplit(bytes: bool, w: Window, k: nat)
    requires k <= |w|
    ensures Held(bytes, w) == Held(bytes, w[..k]) + Held(bytes, w[k..])
  {
    assert w == w[..k] + w[k..];
    HeldAppend(bytes, w[..k], w[k..]);
  }

  lemma {:induction false} HeldNothing(bytes: bool, w: Window)
    requires forall i :: 0 <= i < |w| ==> !w[i].Has()
    ensures Held(bytes, w) == 0
  {
    if w != [] {
      HeldNothing(bytes, w[1..]);
    }
  }

  lemma HeldUpdate(bytes: bool, w: Window, k: nat, e: Entry)
    requires k < |w|
    ensures Held(bytes, w[k := e]) == Held(bytes, w) - Weight(bytes, w[k]) + Weight(bytes, e)
  {
    HeldSplit(bytes, w, k);
    HeldSplit(bytes, w[k := e], k);
    assert w[k := e][..k] == w[..k];
    assert w[k := e][k..] == [e] + w[k..][1..];
  }

  /** A stored stretch counts one for each packet, or the bytes a read takes from it. */
  lemma {:induction false} HeldRun(w: Window)
    requires forall i :: 0 <= i < |w| ==> w[i].Has()
    ensures Held(false, w) == |w|
    ensures Held(true, w) == |Payloads(UnitPackets(w))|
  {
    if w != [] {
      HeldRun(w[1..]);
      assert UnitPackets(w)[1..] == UnitPackets(w[1..]);
    }
  }

  function Counter(bytes: bool, s: State): int {
    if bytes then s.bytes else s.pkts
  }

  /** By how much a counter exceeds what is stored. */
  function Excess(bytes: bool, s: State): int {
    Counter(bytes, s) - Held(bytes, s.w)
  }

  /** Releasing fillers changes neither. */
  lemma ReleaseKeepsExcess(bytes: bool, m: Mode, s: State)
    requires m.size >= 1 && |s.w| <= MAX_SEQ_NO && AllConsistent(s.w)
    ensures Excess(bytes, Release(m, s)) == Excess(bytes, s)
  {
    var c := LeadingFillers(s.w);
    HeldSplit(bytes, s.w, c);
    HeldNothing(bytes, s.w[..c]);
  }

  lemma InsertKeepsExcess(bytes: bool, m: Mode, s: State, u: Unit)
    requires Inv(m, s)
    ensures Excess(bytes, Insert(m, s, u).0) == Excess(bytes, s)
  {
    InsertKeepsInv(m, s, u);
    var (s', code) := Insert(m, s, u);
    if code == INSERTED {
      var off := SeqOff(s.startSeq, u.packet.seqno);
      var grown := Grow(s.w, off + 1);
      if off < |s.w| {
        assert grown[off] == s.w[off] && s.w[off].Consistent();
      }
      HeldSplit(bytes, grown, |s.w|);
      assert grown[..|s.w|] == s.w;
      HeldNothing(bytes, grown[|s.w|..]);
      HeldUpdate(bytes, grown, off, Entry(Some(u), Avail));
    }
  }

  lemma HeldAround(bytes: bool, w: Window, r: nat, e: nat)
    requires r <= e <= |w| && forall i :: r <= i < e ==> w[i].Has()
    ensures Held(bytes, w) == Held(bytes, w[..r]) + Held(bytes, w[e..])
                              + if bytes then |Payloads(UnitPackets(w[r..e]))| else e - r
  {
    HeldSplit(bytes, w, r);
    HeldSplit(bytes, w[r..], e - r);
    assert w[r..][..e - r] == w[r..e] && w[r..][e - r..] == w[e..];
    HeldRun(w[r..e]);
  }

  lemma HeldMarked(bytes: bool, v: Window, n: nat, w: Window)
    ensures Held(bytes, v + Reads(n) + w) == Held(bytes, v) + Held(bytes, w)
  {
    HeldAppend(bytes, v, Reads(n));
    HeldAppend(bytes, v + Reads(n), w);
    HeldNothing(bytes, Reads(n));
  }

  /** Taking the packets of a message takes them off the counters. */
  lemma TakeKeepsExcess(bytes: bool, m: Mode, s: State, r: nat)
    requires m.size >= 1 && |s.w| <= MAX_SEQ_NO && r <= |s.w|
    ensures Excess(bytes, TakeAndCount(m, s, r)) == Excess(bytes, s)
  {
    var e := SpanEnd(true, s.w, r);
    SpanShape(true, s.w, r);
    HeldAround(bytes, s.w, r, e);
    if r == 0 {
      HeldNothing(bytes, s.w[..r]);
    } else {
      HeldMarked(bytes, s.w[..r], e - r, s.w[e..]);
    }
  }

  lemma ReadKeepsExcess(bytes: bool, m: Mode, s: State, r: nat)
    requires Inv(m, s) && r <= |s.w|
    ensures Excess(bytes, ReadAt(m, s, r)) == Excess(bytes, s)
  {
    TakeKeepsExcess(bytes, m, s, r);
    TakeAtKeeps(m, s, r);
    ReleaseKeepsExcess(bytes, m, TakeAndCount(m, s, r));
  }

  /** Dropped packets stay in the counters. */
  lemma DropUpToAddsExcess(bytes: bool, m: Mode, s: State, seqno: Seq)
    requires Inv(m, s)
    ensures var len := SeqOff(s.startSeq, seqno);
            Excess(bytes, DropUpTo(m, s, seqno).0) ==
            Excess(bytes, s) + if len <= 0 then 0 else Held(bytes, s.w[..Min(len, |s.w|)])
  {
    var len := SeqOff(s.startSeq, seqno);
    if len > 0 {
      HeldSplit(bytes, s.w, Min(len, |s.w|));
      ReleaseKeepsExcess(bytes, m, DropFront(m, s, len, seqno));
    }
  }

  /** The stored packets a choice picks. */
  function HeldPicked(bytes: bool, w: Window, c: Choice, k: nat): nat
    requires k <= |w|
  {
    if k == 0 then 0
    else HeldPicked(bytes, w, c, k - 1) + if c.Picks(k - 1, w[k - 1]) then Weight(bytes, w[k - 1]) else 0
  }

  lemma {:induction false} DropChosenHeld(bytes: bool, w: Window, c: Choice, k: nat)
    requires k <= |w|
    ensures Held(bytes, DropChosen(w, c, k)) == Held(bytes, w) - HeldPicked(bytes, w, c, k)
  {
    if k == 0 {
      assert DropChosen(w, c, 0) == w;
    } else {
      var v := DropChosen(w, c, k - 1);
      DropChosenHeld(bytes, w, c, k - 1);
      if c.Picks(k - 1, w[k - 1]) {
        assert DropChosen(w, c, k) == v[k - 1 := DROP_ENTRY];
        HeldUpdate(bytes, v, k - 1, DROP_ENTRY);
      } else {
        assert DropChosen(w, c, k) == v;
      }
    }
  }

  lemma DropMessageAddsExcess(bytes: bool, m: Mode, s: State, c: Choice)
    requires Inv(m, s)
    ensures Excess(bytes, DropMessage(m, s, c).0) == Excess(bytes, s) + HeldPicked(bytes, s.w, c, |s.w|)
  {
    DropChosenHeld(bytes, s.w, c, |s.w|);
    DropPickedKeeps(m, s, c);
    ReleaseKeepsExcess(bytes, m, DropPicked(m, s, c));
  }

  /** Reading bytes takes one packet off the packet counter whatever it releases, and off the byte counter
      what it delivered; `consumed` is how many packets were released. */
  lemma {:induction false} ReadLoopHeld(m: Mode, s: State, room: nat, playTime: Packet -> int, now: int)
    requires Inv(m, s) && !m.msgApi && ReadyToRead(s) && NotchFits(s)
    ensures var (s', data) := ReadBufferLoop(m, s, room, playTime, now);
            && Held(false, s'.w) == Held(false, s.w) - (s.frontier - s'.frontier)
            && Held(true, s'.w) - s'.notch == Held(true, s.w) - s.notch - |data|
            && s'.pkts == s.pkts && s'.bytes == s.bytes
    decreases s.frontier
  {
    if s.frontier > 0 && room > 0 && !(m.tsbpd && playTime(s.w[0].Pkt()) > now) {
      var rest := s.w[0].Pkt().payload[s.notch..];
      if room >= |rest| {
        var s1 := PassFirst(m, s);
        assert ReadyToRead(s1);
        if s1.frontier > 0 {
          AdvanceNumbered(s.w, s.startSeq, 1);
          StreamChain(s1.w, 0, s1.frontier);
          assert s1.w[0].Consistent();
          ReadLoopHeld(m, s1, room - |rest|, playTime, now);
        }
      }
    }
  }

  /** The read takes the first packet to its end, and nothing to its end after it. */
  ghost predicate ReadsOnePacket(m: Mode, s: State, room: nat, playTime: Packet -> int, now: int)
    requires ReadyToRead(s) && NotchFits(s)
  {
    && s.frontier > 0 && room > 0 && Due(m, s.w[0], playTime, now)
    && var left := room - (|s.w[0].Pkt().payload| - s.notch);
       && left >= 0
       && (s.frontier == 1 || left == 0 || !Due(m, s.w[1], playTime, now) || |s.w[1].Pkt().payload| > left)
  }

  lemma ReadLoopStops(m: Mode, s: State, room: nat, playTime: Packet -> int, now: int)
    requires m.size >= 1 && ReadyToRead(s) && NotchFits(s)
    ensures ReadBufferLoop(m, s, room, playTime, now).0.frontier == s.frontier <==>
            || s.frontier == 0 || room == 0 || !Due(m, s.w[0], playTime, now)
            || |s.w[0].Pkt().payload| - s.notch > room
  {
  }

  lemma ReadsOneIff(m: Mode, s: State, room: nat, playTime: Packet -> int, now: int)
    requires m.size >= 1 && ReadyToRead(s) && NotchFits(s)
    ensures s.frontier - ReadBufferLoop(m, s, room, playTime, now).0.frontier == 1 <==>
            ReadsOnePacket(m, s, room, playTime, now)
  {
    ReadLoopStops(m, s, room, playTime, now);
    if s.frontier > 0 && room > 0 && Due(m, s.w[0], playTime, now) && |s.w[0].Pkt().payload| - s.notch <= room {
      var s1 := PassFirst(m, s);
      assert s1.frontier > 0 ==> s1.w[0] == s.w[1];
      ReadLoopStops(m, s1, room - |s.w[0].Pkt().payload[s.notch..]|, playTime, now);
    }
  }

  /** The byte counter stays right, less what was read of the first packet. The packet counter stays right
      exactly when the read takes one packet to its end. */
  lemma ReadBufferExcess(m: Mode, s: State, len: nat, playTime: Packet -> int, now: int)
    requires Inv(m, s) && !m.msgApi && ReadyToRead(s) && NotchFits(s)
    ensures var s' := ReadBuffer(m, s, len, playTime, now).0;
            && Excess(true, s') + s'.notch == Excess(true, s) + s.notch
            && (Excess(false, s') == Excess(false, s) <==> ReadsOnePacket(m, s, len, playTime, now))
  {
    ReadLoopHeld(m, s, len, playTime, now);
    ReadsOneIff(m, s, len, playTime, now);
  }

  /** Two ways for the packet counter to go wrong: with two packets stored, after both were read it still counts one;
      and after a read of no bytes it counts one too few. */
  lemma PacketCounterGoesWrong(playTime: Packet -> int, now: int)
    ensures var m := Mode(8, false, false);
            var s := State([OneByte(0), OneByte(1)], 0, 2, -1, 2, 2, 0);
            var both := ReadBuffer(m, s, 100, playTime, now).0;
            var none := ReadBuffer(m, s, 0, playTime, now).0;
            && Inv(m, s)
            && both.w == [] && both.pkts == 1 && both.bytes == 0
            && none.w == s.w && none.pkts == 1 && none.bytes == 2
  {
    var m := Mode(8, false, false);
    var w := [OneByte(0), OneByte(1)];
    var s := State(w, 0, 2, -1, 2, 2, 0);
    StreamChain(w, 0, 2);
    assert OneByte(0).Pkt().payload[0..] == [7] && OneByte(1).Pkt().payload[0..] == [7];
    var s1 := PassFirst(m, s);
    assert s1.w == [OneByte(1)];
    var s2 := PassFirst(m, s1);
    assert s2.w == [];
    assert ReadBufferLoop(m, s2, 98, playTime, now) == (s2, []);
    assert ReadBufferLoop(m, s1, 99, playTime, now).0 == s2;
  }

  // ----- runs

  predicate Drops(e: Event) {
    e.DropTo? || e.DropEverything? || e.DropMsg?
  }

  lemma StepExcess(bytes: bool, m: Mode, st: Stream, isn: nat, s: Sys, e: Event)
    requires Inv(m, s.rcv) && Allowed(st, s, e)
    ensures Excess(bytes, Next(m, st, isn, s, e).rcv) >= Excess(bytes, s.rcv)
    ensures !Drops(e) ==> Excess(bytes, Next(m, st, isn, s, e).rcv) == Excess(bytes, s.rcv)
  {
    match e
    case Arrive(u, id) => InsertKeepsExcess(bytes, m, s.rcv, Unit(id, st[u]));
    case ReadMsg(len) =>
      ReadMsgIs(m, s, len);
      if ReadOffset(s.rcv) >= 0 {
        ReadKeepsExcess(bytes, m, s.rcv, ReadOffset(s.rcv));
        assert Next(m, st, isn, s, e).rcv == ReadAt(m, s.rcv, ReadOffset(s.rcv));
      }
    case DropTo(u) =>
      DropUpToAddsExcess(bytes, m, s.rcv, Wrap(isn + u));
      assert Next(m, st, isn, s, e).rcv == DropUpTo(m, s.rcv, Wrap(isn + u)).0;
    case DropEverything =>
      if |s.rcv.w| > 0 {
        DropUpToAddsExcess(bytes, m, s.rcv, IncSeq(s.rcv.startSeq, |s.rcv.w|));
      }
      assert Next(m, st, isn, s, e).rcv == DropAll(m, s.rcv).0;
    case DropMsg(c) =>
      DropMessageAddsExcess(bytes, m, s.rcv, c);
      assert Next(m, st, isn, s, e).rcv == DropMessage(m, s.rcv, c).0;
  }

  /** Along any run the counters never fall short of what is stored, and without drops they are exact. */
  lemma {:induction false} RunExcess(bytes: bool, m: Mode, st: Stream, isn: nat, s: Sys, es: seq<Event>, s': Sys)
    requires Leads(m, st, isn, s, es, s')
    ensures Excess(bytes, s'.rcv) >= Excess(bytes, s.rcv)
    ensures (forall e :: e in es ==> !Drops(e)) ==> Excess(bytes, s'.rcv) == Excess(bytes, s.rcv)
    decreases |es|
  {
    if es != [] {
      StepExcess(bytes, m, st, isn, s, es[0]);
      RunExcess(bytes, m, st, isn, Next(m, st, isn, s, es[0]), es[1..], s');
    }
  }
}
