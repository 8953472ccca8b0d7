/** Whole runs in stream mode: what is read is what was sent, byte for byte. */
module RcvStream {
  import opened SeqNo
  import opened Packets
  import opened RcvWindow
  import opened RcvWindowInvariant
  import opened RcvMessages
  import opened RcvRun
  import opened RcvFrontier

  /** A buffer in stream mode, the number of its start position, and all bytes read so far. */
  datatype Reader = Reader(rcv: State, base: nat, output: seq<Byte>)

  /** `ReadBytes` happens at some time of the receiver's clock. */
  datatype Action = Receive(u: nat, id: nat) | ReadBytes(len: nat, now: int)

  predicate NoFillers(w: Window) {
    forall k :: 0 <= k < |w| ==> !w[k].IsFiller()
  }

  ghost predicate MatchesFrom(st: Stream, w: Window, base: nat) {
    forall k :: 0 <= k < |w| && w[k].Has() ==> base + k < |st| && w[k].Pkt() == st[base + k]
  }

  /** The bytes read are those of all packets before the start position, and the read part of the first one. */
  ghost predicate Delivers(st: Stream, base: nat, notch: nat, output: seq<Byte>) {
    if notch == 0 then base <= |st| && output == Payloads(st[..base])
    else base < |st| && notch <= |st[base].payload| && output == Payloads(st[..base]) + st[base].payload[..notch]
  }

  ghost predicate StreamInv(m: Mode, st: Stream, isn: nat, r: Reader) {
    && Inv(m, r.rcv)
    && NoFillers(r.rcv.w)
    && NotchFits(r.rcv)
    && r.rcv.startSeq == Wrap(isn + r.base)
    && MatchesFrom(st, r.rcv.w, r.base)
    && Delivers(st, r.base, r.rcv.notch, r.output)
  }

  ghost predicate Possible(st: Stream, r: Reader, a: Action) {
    a.Receive? ==> a.u < |st| && Abs(a.u - r.base) < SEQ_NO_TH
  }

  ghost function Step(m: Mode, st: Stream, playTime: Packet -> int, r: Reader, a: Action): Reader
    requires Inv(m, r.rcv) && ReadyToRead(r.rcv) && NotchFits(r.rcv) && Possible(st, r, a)
  {
    match a
    case Receive(u, id) => r.(rcv := Insert(m, r.rcv, Unit(id, st[u])).0)
    case ReadBytes(len, now) =>
      var (rcv', data) := ReadBuffer(m, r.rcv, len, playTime, now);
      Reader(rcv', r.base + (r.rcv.frontier - rcv'.frontier), r.output + data)
  }

  lemma StoredKeepsStream(st: Stream, w: Window, base: nat, off: nat, u: Unit)
    requires NoFillers(w) && MatchesFrom(st, w, base) && base + off < |st| && u.packet == st[base + off]
    ensures NoFillers(Stored(w, off, u)) && MatchesFrom(st, Stored(w, off, u), base)
  {
  }

  lemma InsertStores(m: Mode, s: State, isn: nat, base: nat, u: nat, unit: Unit)
    requires Inv(m, s) && s.startSeq == Wrap(isn + base) && unit.packet.seqno == Wrap(isn + u)
    requires Abs(u - base) < SEQ_NO_TH
    requires Insert(m, s, unit).1 == INSERTED && NotchFits(s)
    ensures NotchFits(Insert(m, s, unit).0)
    ensures u >= base && Insert(m, s, unit).0.w == Stored(s.w, u - base, unit)
    ensures Insert(m, s, unit).0.startSeq == s.startSeq && Insert(m, s, unit).0.notch == s.notch
  {
    OffsetIsDistance(isn + base, isn + u);
    if s.w != [] && s.w[0].Has() {
      assert s.w[0].Consistent();
    }
  }

  lemma StoredInv(m: Mode, st: Stream, isn: nat, r: Reader, rcv': State, off: nat, unit: Unit)
    requires StreamInv(m, st, isn, r) && Inv(m, rcv') && NotchFits(rcv') && rcv'.w == Stored(r.rcv.w, off, unit)
    requires rcv'.startSeq == r.rcv.startSeq && rcv'.notch == r.rcv.notch
    requires r.base + off < |st| && unit.packet == st[r.base + off]
    ensures StreamInv(m, st, isn, r.(rcv := rcv'))
  {
    StoredKeepsStream(st, r.rcv.w, r.base, off, unit);
  }

  lemma ReceiveKeeps(m: Mode, st: Stream, isn: nat, r: Reader, u: nat, id: nat)
    requires StreamInv(m, st, isn, r) && InSequence(st, isn) && u < |st| && Abs(u - r.base) < SEQ_NO_TH
    ensures StreamInv(m, st, isn, r.(rcv := Insert(m, r.rcv, Unit(id, st[u])).0))
  {
    var unit := Unit(id, st[u]);
    InsertKeepsInv(m, r.rcv, unit);
    if Insert(m, r.rcv, unit).1 == INSERTED {
      InsertStores(m, r.rcv, isn, r.base, u, unit);
      StoredInv(m, st, isn, r, Insert(m, r.rcv, unit).0, u - r.base, unit);
    } else {
      assert r.(rcv := Insert(m, r.rcv, unit).0) == r;
    }
  }

  /** The first packet was read to its end. */
  lemma PassDelivers(st: Stream, base: nat, notch: nat, output: seq<Byte>)
    requires base < |st| && notch <= |st[base].payload| && Delivers(st, base, notch, output)
    ensures Delivers(st, base + 1, 0, output + st[base].payload[notch..])
  {
    var p := st[base].payload;
    assert st[..base + 1] == st[..base] + [st[base]];
    PayloadsAppend(st[..base], [st[base]]);
    assert Payloads([st[base]]) == p;
    assert p == p[..notch] + p[notch..];
    if notch > 0 {
      assert Payloads(st[..base]) + p[..notch] + p[notch..] == Payloads(st[..base]) + p;
    }
  }

  lemma PartDelivers(st: Stream, base: nat, notch: nat, output: seq<Byte>, n: nat)
    requires base < |st| && notch + n <= |st[base].payload| && Delivers(st, base, notch, output)
    ensures Delivers(st, base, notch + n, output + st[base].payload[notch..][..n])
  {
    var p := st[base].payload;
    assert p[..notch + n] == p[..notch] + p[notch..][..n];
    if notch > 0 {
      assert Payloads(st[..base]) + p[..notch] + p[notch..][..n] ==
             Payloads(st[..base]) + (p[..notch] + p[notch..][..n]);
    } else if n > 0 {
      assert p[notch..] == p;
    }
  }

  lemma PassKeeps(m: Mode, st: Stream, isn: nat, r: Reader)
    requires StreamInv(m, st, isn, r) && !m.msgApi && r.rcv.frontier > 0 && ReadyToRead(r.rcv)
    ensures var rest := r.rcv.w[0].Pkt().payload[r.rcv.notch..];
            var r1 := Reader(PassFirst(m, r.rcv), r.base + 1, r.output + rest);
            StreamInv(m, st, isn, r1) && ReadyToRead(r1.rcv)
  {
    var w := r.rcv.w;
    assert w[0].Pkt() == st[r.base];
    AdvanceNumbered(w, r.rcv.startSeq, 1);
    StreamChain(w[1..], 0, r.rcv.frontier - 1);
    IncSeqWraps(isn + r.base, 1);
    PassDelivers(st, r.base, r.rcv.notch, r.output);
  }

  /** The reader after the loop. */
  ghost function After(m: Mode, r: Reader, room: nat, playTime: Packet -> int, now: int): Reader
    requires m.size >= 1 && ReadyToRead(r.rcv) && NotchFits(r.rcv)
  {
    var (rcv', data) := ReadBufferLoop(m, r.rcv, room, playTime, now);
    Reader(rcv', r.base + (r.rcv.frontier - rcv'.frontier), r.output + data)
  }

  /** The reader after the loop is that after the loop's first round went on. */
  lemma AfterPass(m: Mode, r: Reader, r1: Reader, room: nat, playTime: Packet -> int, now: int)
    requires m.size >= 1 && ReadyToRead(r.rcv) && NotchFits(r.rcv)
    requires r.rcv.frontier > 0 && room > 0 && !(m.tsbpd && playTime(r.rcv.w[0].Pkt()) > now)
    requires var rest := r.rcv.w[0].Pkt().payload[r.rcv.notch..];
             && room >= |rest|
             && r1 == Reader(PassFirst(m, r.rcv), r.base + 1, r.output + rest)
             && ReadyToRead(r1.rcv)
    ensures var rest := r.rcv.w[0].Pkt().payload[r.rcv.notch..];
            After(m, r, room, playTime, now) == After(m, r1, room - |rest|, playTime, now)
  {
    var rest := r.rcv.w[0].Pkt().payload[r.rcv.notch..];
    var q := ReadBufferLoop(m, r1.rcv, room - |rest|, playTime, now);
    assert r.output + (rest + q.1) == (r.output + rest) + q.1;
  }

  /** A part of the first packet was read. */
  lemma PartKeeps(m: Mode, st: Stream, isn: nat, r: Reader, room: nat)
    requires StreamInv(m, st, isn, r) && !m.msgApi && ReadyToRead(r.rcv) && r.rcv.frontier > 0
    requires room < |r.rcv.w[0].Pkt().payload| - r.rcv.notch
    ensures var rest := r.rcv.w[0].Pkt().payload[r.rcv.notch..];
            StreamInv(m, st, isn, Reader(r.rcv.(notch := r.rcv.notch + room), r.base, r.output + rest[..room]))
  {
    assert r.rcv.w[0].Pkt() == st[r.base];
    PartDelivers(st, r.base, r.rcv.notch, r.output, room);
  }

  lemma {:induction false} ReadLoopKeeps(m: Mode, st: Stream, isn: nat, r: Reader, room: nat, playTime: Packet -> int,
                                         now: int)
    requires StreamInv(m, st, isn, r) && !m.msgApi && ReadyToRead(r.rcv)
    ensures StreamInv(m, st, isn, After(m, r, room, playTime, now))
    decreases r.rcv.frontier
  {
    if r.rcv.frontier == 0 || room == 0 || (m.tsbpd && playTime(r.rcv.w[0].Pkt()) > now) {
      assert r.output + [] == r.output;
    } else {
      assert r.rcv.w[0].Pkt() == st[r.base];
      var rest := r.rcv.w[0].Pkt().payload[r.rcv.notch..];
      if room >= |rest| {
        var r1 := Reader(PassFirst(m, r.rcv), r.base + 1, r.output + rest);
        PassKeeps(m, st, isn, r);
        ReadLoopKeeps(m, st, isn, r1, room - |rest|, playTime, now);
        AfterPass(m, r, r1, room, playTime, now);
      } else {
        PartKeeps(m, st, isn, r, room);
      }
    }
  }

  ghost predicate Runs(m: Mode, st: Stream, playTime: Packet -> int, r: Reader, acts: seq<Action>, r': Reader)
    decreases |acts|
  {
    if acts == [] then r == r'
    else
      && Inv(m, r.rcv) && ReadyToRead(r.rcv) && NotchFits(r.rcv) && Possible(st, r, acts[0])
      && Runs(m, st, playTime, Step(m, st, playTime, r, acts[0]), acts[1..], r')
  }

  lemma StepKeeps(m: Mode, st: Stream, isn: nat, playTime: Packet -> int, r: Reader, a: Action)
    requires StreamInv(m, st, isn, r) && InSequence(st, isn) && !m.msgApi && ReadyToRead(r.rcv) && Possible(st, r, a)
    ensures StreamInv(m, st, isn, Step(m, st, playTime, r, a))
  {
    match a
    case Receive(u, id) => ReceiveKeeps(m, st, isn, r, u, id);
    case ReadBytes(len, now) => ReadLoopKeeps(m, st, isn, r, len, playTime, now);
  }

  lemma {:induction false} RunKeepsStream(m: Mode, st: Stream, isn: nat, playTime: Packet -> int, r: Reader,
                                          acts: seq<Action>, r': Reader)
    requires StreamInv(m, st, isn, r) && InSequence(st, isn) && !m.msgApi && Runs(m, st, playTime, r, acts, r')
    ensures StreamInv(m, st, isn, r')
    decreases |acts|
  {
    if acts != [] {
      StepKeeps(m, st, isn, playTime, r, acts[0]);
      RunKeepsStream(m, st, isn, playTime, Step(m, st, playTime, r, acts[0]), acts[1..], r');
    }
  }

  lemma {:induction false} PayloadsPrefix(st: Stream, n: nat)
    requires n <= |st|
    ensures Payloads(st[..n]) <= Payloads(st)
  {
    assert st == st[..n] + st[n..];
    PayloadsAppend(st[..n], st[n..]);
  }

  /** In stream mode without drops all bytes read are a prefix of all bytes sent, in whatever order the packets
      arrive, however often, and whatever sizes are read. */
  lemma BytesInOrder(m: Mode, st: Stream, isn: nat, playTime: Packet -> int, acts: seq<Action>, r': Reader)
    requires 1 <= m.size < INT_MAX && !m.msgApi && InSequence(st, isn)
    requires Runs(m, st, playTime, Reader(InitSys(isn).rcv, 0, []), acts, r')
    ensures r'.output <= Payloads(st)
  {
    var r0 := Reader(InitSys(isn).rcv, 0, []);
    assert st[..0] == [];
    RunKeepsStream(m, st, isn, playTime, r0, acts, r');
    var n := r'.base;
    PayloadsPrefix(st, n);
    if r'.rcv.notch > 0 {
      assert st[..n + 1] == st[..n] + [st[n]];
      PayloadsAppend(st[..n], [st[n]]);
      assert Payloads([st[n]]) == st[n].payload;
      PayloadsPrefix(st, n + 1);
    }
  }
}
