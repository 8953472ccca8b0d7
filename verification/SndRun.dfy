/** Whole runs of the send buffer: what goes on the wire under a number is always the same packet of the stream. */
module SndRun {
  import opened SeqNo
  import opened Packets
  import opened SndQueue
  import opened SndMessages
  import opened EndToEnd

  /** The queue with the number of its first packet, the next sequence number, and all messages submitted so far.
      `emitted` holds what was handed out, with its number in the stream; `firsts` the numbers handed out by the first
      reading, in their order, `stamps` with which key flags, and `passed` the numbers that sending passed without
      handing them out. */
  datatype Sender = Sender(
    q: Queue, base: nat, next: Seq, msgs: seq<Message>, emitted: set<(nat, Packet)>, firsts: seq<nat>,
    stamps: map<nat, bv8>, passed: set<nat>)

  datatype Step =
    | Submit(msg: Message, ttl: int, srctime: int, now: int)
    | Ack(n: nat)
    | DropTooLate(limit: int)
    | SendNew(kflgs: Option<bv8>, clock: nat -> int)
    | SendAgain(offset: nat, now: int)

  function InitSender(size: nat, isn: nat): Sender {
    Sender(Queue([], 0, size, 1, 0, 0), 0, Wrap(isn), [], {}, [], map[], {})
  }

  ghost predicate Possible(s: Sender, e: Step) {
    match e
    case Submit(msg, _, _, _) => 0 < |msg.data| <= MAX_SEQ_NO
    case Ack(n) => n <= |s.q.items|
    case _ => true
  }

  ghost function Removed(s: Sender, n: nat): Sender
    requires n <= |s.q.items|
  {
    s.(q := RemoveFirst(s.q, n), base := s.base + n)
  }

  ghost function Submitting(s: Sender, mss: nat, unit: nat, msg: Message, ttl: int, srctime: int, now: int): Sender
    requires mss > 0 && unit > 0 && |msg.data| <= MAX_SEQ_NO
  {
    var c := Control(None, s.next, msg.inOrder, ttl, srctime);
    s.(q := Add(s.q, mss, unit, msg.data, c, now),
       next := AddReply(s.q, mss, msg.data, c, now).seqno,
       msgs := s.msgs + [msg])
  }

  function FromTo(lo: nat, hi: nat): (r: set<nat>)
    ensures forall u :: u in r <==> lo <= u < hi
  {
    if hi <= lo then {} else FromTo(lo, hi - 1) + {hi - 1}
  }

  /** The numbers that sending came past, when it goes from index `k` on. */
  ghost function Past(s: Sender, k: nat): set<nat> {
    FromTo(s.base + s.q.sent, s.base + k)
  }

  /** After a reading that left the queue as `q'`. One that handed out no packet, or none that may be sent, leaves
      none on the wire. */
  ghost function AfterReading(s: Sender, kflgs: Option<bv8>, q': Queue, out: Handout): Sender {
    var k := s.q.sent + out.skipped;
    if k >= |s.q.items| || out.slot.None? || kflgs.None? then s.(q := q', passed := s.passed + Past(s, q'.sent))
    else
      s.(q := q', passed := s.passed + (Past(s, q'.sent) - {s.base + k}),
         emitted := s.emitted + {(s.base + k, out.slot.value.packet)}, firsts := s.firsts + [s.base + k],
         stamps := s.stamps[s.base + k := out.slot.value.keySpec])
  }

  ghost function SentNew(s: Sender, kflgs: Option<bv8>, clock: nat -> int): Sender
    requires s.q.sent <= |s.q.items|
  {
    var r := ReadNew(s.q, kflgs, clock);
    AfterReading(s, kflgs, r.0, r.1)
  }

  /** What is handed out again goes on the wire under the number asked for. */
  ghost function SentAgain(s: Sender, offset: nat, now: int): Sender {
    var (q', out) := ReadAgain(s.q, offset, now);
    if out.Resend? then s.(q := q', emitted := s.emitted + {(s.base + offset, out.slot.packet)})
    else s.(q := q', passed := s.passed + Past(s, q'.sent))
  }

  ghost function Next(s: Sender, mss: nat, unit: nat, e: Step): Sender
    requires mss > 0 && unit > 0 && QueueInv(s.q) && Possible(s, e)
  {
    match e
    case Submit(msg, ttl, srctime, now) => Submitting(s, mss, unit, msg, ttl, srctime, now)
    case Ack(n) => Removed(s, n)
    case DropTooLate(limit) => Removed(s, LateCount(s.q.items, limit))
    case SendNew(kflgs, clock) => SentNew(s, kflgs, clock)
    case SendAgain(offset, now) => SentAgain(s, offset, now)
  }

  /** The queue holds the end of the stream. */
  ghost predicate HoldsTail(s: Sender, st: seq<Packet>, isn: nat) {
    && QueueInv(s.q)
    && s.base <= |st| && PacketsOf(s.q.items) == st[s.base..]
    && s.next == Wrap(isn + |st|)
  }

  /** What was handed out is the packet of that number; new packets were handed out in their order, once each, and
      all of them lie before the current one. */
  ghost predicate EmittedRight(s: Sender, st: seq<Packet>) {
    && (forall x :: x in s.emitted ==> x.0 < |st| && x.1 == st[x.0])
    && (forall i, j :: 0 <= i < j < |s.firsts| ==> s.firsts[i] < s.firsts[j])
    && (forall i :: 0 <= i < |s.firsts| ==> s.firsts[i] < s.base + s.q.sent)
  }

  ghost predicate Tracks(s: Sender, st: seq<Packet>, isn: nat) {
    HoldsTail(s, st, isn) && EmittedRight(s, st)
  }

  /** All this holds for the stream of the messages submitted so far. */
  ghost predicate SenderInv(s: Sender, mss: nat, isn: nat) {
    && mss > 0
    && Submittable(s.msgs)
    && s.q.nextMsgNo == NumberAt(|s.msgs|)
    && Tracks(s, StreamOf(s.msgs, mss, isn), isn)
  }

  lemma InitSenderKeeps(size: nat, mss: nat, isn: nat)
    requires size >= 1 && mss >= 1
    ensures SenderInv(InitSender(size, isn), mss, isn)
  {
  }

  /** The packets of a message depend on nothing else of the control data. */
  lemma {:induction false} SamePackets(data: seq<Byte>, mss: nat, first: bool, seqno: Seq, msgno: nat, c: Control,
                                       c': Control, o: int, o': int)
    requires mss > 0 && c.inOrder == c'.inOrder
    ensures PacketsOf(Fragments(data, mss, first, seqno, msgno, c, o)) ==
            PacketsOf(Fragments(data, mss, first, seqno, msgno, c', o'))
    decreases |data|
  {
    if |data| > mss {
      SamePackets(data[mss..], mss, false, IncSeq(seqno, 1), msgno, c, c', o, o');
      var f, f' := Fragment(data, mss, first, seqno, msgno, c, o), Fragment(data, mss, first, seqno, msgno, c', o');
      PacketsAppend([f], Fragments(data[mss..], mss, false, IncSeq(seqno, 1), msgno, c, o));
      PacketsAppend([f'], Fragments(data[mss..], mss, false, IncSeq(seqno, 1), msgno, c', o'));
      assert PacketsOf([f]) == PacketsOf([f']);
    }
  }

  lemma PacketsAppend(a: seq<Slot>, b: seq<Slot>)
    ensures PacketsOf(a + b) == PacketsOf(a) + PacketsOf(b)
  {
  }

  lemma PacketsDrop(a: seq<Slot>, n: nat)
    requires n <= |a|
    ensures PacketsOf(a[n..]) == PacketsOf(a)[n..]
  {
  }

  lemma {:induction false} StreamGrows(msgs: seq<Message>, mss: nat, isn: nat, msg: Message, next: Seq)
    requires mss > 0 && next == Wrap(isn + |StreamOf(msgs, mss, isn)|)
    ensures StreamOf(msgs + [msg], mss, isn) == StreamOf(msgs, mss, isn) + MessagePackets(msg, |msgs|, mss, next)
  {
    assert (msgs + [msg])[..|msgs|] == msgs;
    StreamNext(msgs + [msg], msgs, msg, mss, isn);
  }

  lemma TailGrows(st: seq<Packet>, ps: seq<Packet>, n: nat)
    requires n <= |st|
    ensures (st + ps)[n..] == st[n..] + ps
  {
  }

  /** The packets of the new message are those the queue appends. */
  lemma SubmitPackets(s: Sender, mss: nat, unit: nat, msg: Message, ttl: int, srctime: int, now: int)
    requires mss > 0 && unit > 0 && |msg.data| <= MAX_SEQ_NO && s.q.nextMsgNo == NumberAt(|s.msgs|)
    ensures PacketsOf(Submitting(s, mss, unit, msg, ttl, srctime, now).q.items) ==
            PacketsOf(s.q.items) + MessagePackets(msg, |s.msgs|, mss, s.next)
  {
    var c := Control(None, s.next, msg.inOrder, ttl, srctime);
    var c' := Control(None, s.next, msg.inOrder, -1, 0);
    SamePackets(msg.data, mss, true, s.next, s.q.nextMsgNo, c, c', Origin(c, now), 0);
    PacketsAppend(s.q.items, Fragments(msg.data, mss, true, s.next, s.q.nextMsgNo, c, Origin(c, now)));
  }

  /** The stream grows by the packets `ps` that are appended to the queue. */
  lemma AppendKeeps(s: Sender, s': Sender, st: seq<Packet>, ps: seq<Packet>, isn: nat)
    requires Tracks(s, st, isn) && QueueInv(s'.q) && |ps| <= MAX_SEQ_NO
    requires PacketsOf(s'.q.items) == PacketsOf(s.q.items) + ps && s'.next == IncSeq(s.next, |ps|)
    requires s'.base == s.base && s'.q.sent == s.q.sent && s'.emitted == s.emitted && s'.firsts == s.firsts
    ensures Tracks(s', st + ps, isn)
  {
    TailGrows(st, ps, s.base);
    IncSeqWraps(isn + |st|, |ps|);
    assert isn + |st| + |ps| == isn + |st + ps|;
  }

  lemma SubmitTracks(s: Sender, mss: nat, unit: nat, isn: nat, msg: Message, ttl: int, srctime: int, now: int,
                     st: seq<Packet>)
    requires mss > 0 && unit > 0 && Tracks(s, st, isn) && s.q.nextMsgNo == NumberAt(|s.msgs|)
    requires 0 < |msg.data| <= MAX_SEQ_NO
    ensures var s' := Submitting(s, mss, unit, msg, ttl, srctime, now);
            && Tracks(s', st + MessagePackets(msg, |s.msgs|, mss, s.next), isn)
            && s'.msgs == s.msgs + [msg] && s'.q.nextMsgNo == NumberAt(|s.msgs| + 1)
  {
    var s' := Submitting(s, mss, unit, msg, ttl, srctime, now);
    AddKeeps(s.q, mss, unit, msg.data, Control(None, s.next, msg.inOrder, ttl, srctime), now);
    SubmitPackets(s, mss, unit, msg, ttl, srctime, now);
    MessageCount(msg, |s.msgs|, mss, s.next);
    AppendKeeps(s, s', st, MessagePackets(msg, |s.msgs|, mss, s.next), isn);
  }

  lemma {:induction false} SubmitKeeps(s: Sender, mss: nat, unit: nat, isn: nat, msg: Message, ttl: int, srctime: int,
                                       now: int)
    requires SenderInv(s, mss, isn) && unit > 0 && 0 < |msg.data| <= MAX_SEQ_NO
    ensures SenderInv(Submitting(s, mss, unit, msg, ttl, srctime, now), mss, isn)
  {
    SubmitTracks(s, mss, unit, isn, msg, ttl, srctime, now, StreamOf(s.msgs, mss, isn));
    StreamGrows(s.msgs, mss, isn, msg, s.next);
  }

  lemma RemovedKeeps(s: Sender, st: seq<Packet>, isn: nat, n: nat)
    requires Tracks(s, st, isn) && n <= |s.q.items|
    ensures Tracks(Removed(s, n), st, isn)
  {
    RemoveKeeps(s.q, n);
    PacketsDrop(s.q.items, n);
    assert |PacketsOf(s.q.items)| == |st| - s.base;
    assert st[s.base..][n..] == st[s.base + n..];
  }

  /** The packet at index `k` was handed out, as new or again: it is the packet of its number. */
  lemma HandsOut(s: Sender, s': Sender, st: seq<Packet>, isn: nat, k: nat, isNew: bool)
    requires Tracks(s, st, isn) && QueueInv(s'.q) && k < |s.q.items|
    requires PacketsOf(s'.q.items) == PacketsOf(s.q.items) && s'.base == s.base && s'.next == s.next
    requires s'.emitted == s.emitted + {(s.base + k, s.q.items[k].packet)}
    requires s'.firsts == if isNew then s.firsts + [s.base + k] else s.firsts
    requires s.q.sent <= s'.q.sent && (isNew ==> s.q.sent <= k < s'.q.sent)
    ensures Tracks(s', st, isn)
  {
    assert PacketsOf(s.q.items)[k] == s.q.items[k].packet;
  }

  lemma ReadingKeeps(s: Sender, st: seq<Packet>, isn: nat, kflgs: Option<bv8>, q': Queue, out: Handout)
    requires Tracks(s, st, isn) && QueueInv(q') && Handed(s.q, kflgs, q', out, s.q.sent + out.skipped)
    ensures Tracks(AfterReading(s, kflgs, q', out), st, isn)
    ensures var s' := AfterReading(s, kflgs, q', out); s'.msgs == s.msgs && s'.q.nextMsgNo == s.q.nextMsgNo
  {
    var k := s.q.sent + out.skipped;
    if k < |s.q.items| && kflgs.Some? {
      HandsOut(s, AfterReading(s, kflgs, q', out), st, isn, k, true);
    }
  }

  lemma SentNewKeeps(s: Sender, st: seq<Packet>, isn: nat, kflgs: Option<bv8>, clock: nat -> int)
    requires Tracks(s, st, isn)
    ensures Tracks(SentNew(s, kflgs, clock), st, isn)
    ensures SentNew(s, kflgs, clock).msgs == s.msgs && SentNew(s, kflgs, clock).q.nextMsgNo == s.q.nextMsgNo
  {
    var r := ReadNew(s.q, kflgs, clock);
    ReadNewKeeps(s.q, kflgs, clock, 0, None);
    ReadNewShape(s.q, kflgs, clock, 0, None);
    ReadingKeeps(s, st, isn, kflgs, r.0, r.1);
  }

  lemma SentAgainKeeps(s: Sender, st: seq<Packet>, isn: nat, offset: nat, now: int)
    requires Tracks(s, st, isn)
    ensures Tracks(SentAgain(s, offset, now), st, isn)
  {
    var (q', out) := ReadAgain(s.q, offset, now);
    if out.Resend? {
      ReadAgainIs(s.q, offset, now);
      StampBytes(s.q.items, offset, q'.items[offset]);
      assert PacketsOf(q'.items) == PacketsOf(s.q.items);
      HandsOut(s, SentAgain(s, offset, now), st, isn, offset, false);
    }
  }

  lemma StepKeeps(s: Sender, mss: nat, unit: nat, isn: nat, e: Step)
    requires SenderInv(s, mss, isn) && unit > 0 && Possible(s, e)
    ensures SenderInv(Next(s, mss, unit, e), mss, isn)
  {
    var st := StreamOf(s.msgs, mss, isn);
    match e
    case Submit(msg, ttl, srctime, now) => SubmitKeeps(s, mss, unit, isn, msg, ttl, srctime, now);
    case Ack(n) => RemovedKeeps(s, st, isn, n);
    case DropTooLate(limit) => RemovedKeeps(s, st, isn, LateCount(s.q.items, limit));
    case SendNew(kflgs, clock) => SentNewKeeps(s, st, isn, kflgs, clock);
    case SendAgain(offset, now) => SentAgainKeeps(s, st, isn, offset, now);
  }

  ghost predicate Leads(s: Sender, mss: nat, unit: nat, es: seq<Step>, s': Sender)
    decreases |es|
  {
    if es == [] then s == s'
    else
      && mss > 0 && unit > 0 && QueueInv(s.q) && Possible(s, es[0])
      && Leads(Next(s, mss, unit, es[0]), mss, unit, es[1..], s')
  }

  lemma {:induction false} RunKeeps(s: Sender, mss: nat, unit: nat, isn: nat, es: seq<Step>, s': Sender)
    requires SenderInv(s, mss, isn) && Leads(s, mss, unit, es, s')
    ensures SenderInv(s', mss, isn)
    decreases |es|
  {
    if es != [] {
      StepKeeps(s, mss, unit, isn, es[0]);
      RunKeeps(Next(s, mss, unit, es[0]), mss, unit, isn, es[1..], s');
    }
  }

  /** Whatever was submitted, acknowledged, dropped, sent and sent again: every packet handed out is the packet of its
      number in the stream of all messages, and no packet was handed out as new twice. */
  lemma WireCarriesTheStream(size: nat, mss: nat, isn: nat, es: seq<Step>, s': Sender)
    requires size >= 1 && mss >= 1 && Leads(InitSender(size, isn), mss, size, es, s')
    ensures var st := StreamOf(s'.msgs, mss, isn);
            && (forall x :: x in s'.emitted ==> x.0 < |st| && x.1 == st[x.0])
            && (forall i, j :: 0 <= i < j < |s'.firsts| ==> s'.firsts[i] < s'.firsts[j])
            && |s'.q.items| == |st| - s'.base
            && s'.q.bytes == BytesOf(s'.q.items)
  {
    InitSenderKeeps(size, mss, isn);
    RunKeeps(InitSender(size, isn), mss, size, isn, es, s');
  }

  // ----- whole messages

  lemma StepKeepsOrderly(s: Sender, mss: nat, unit: nat, e: Step)
    requires OrderlyQueue(s.q, s.next) && mss > 0 && unit > 0 && QueueInv(s.q) && Possible(s, e)
    ensures OrderlyQueue(Next(s, mss, unit, e).q, Next(s, mss, unit, e).next)
  {
    match e
    case Submit(msg, ttl, srctime, now) =>
      AddKeepsOrderly(s.q, s.next, mss, unit, msg.data, Control(None, s.next, msg.inOrder, ttl, srctime), now);
    case Ack(n) => RemoveKeepsOrderly(s.q, s.next, n);
    case DropTooLate(limit) => RemoveKeepsOrderly(s.q, s.next, LateCount(s.q.items, limit));
    case SendNew(kflgs, clock) => ReadNewKeepsOrderly(s.q, s.next, kflgs, clock);
    case SendAgain(offset, now) => ReadAgainKeepsOrderly(s.q, s.next, offset, now);
  }

  lemma {:induction false} RunKeepsOrderly(s: Sender, mss: nat, unit: nat, es: seq<Step>, s': Sender)
    requires OrderlyQueue(s.q, s.next) && Leads(s, mss, unit, es, s')
    ensures OrderlyQueue(s'.q, s'.next)
    decreases |es|
  {
    if es != [] {
      StepKeepsOrderly(s, mss, unit, es[0]);
      RunKeepsOrderly(Next(s, mss, unit, es[0]), mss, unit, es[1..], s');
    }
  }

  /** After any run, dropping what is late leaves whole messages: what remains begins with the first packet of a message
      unless nothing was dropped, and the number that is reported is that of the first message left or to come. */
  lemma LateDropsWholeMessages(size: nat, mss: nat, isn: nat, es: seq<Step>, s: Sender, limit: int)
    requires size >= 1 && mss >= 1 && Leads(InitSender(size, isn), mss, size, es, s)
    ensures var n := LateCount(s.q.items, limit);
            && (forall i :: 0 <= i < n ==> s.q.items[i].origin < limit)
            && (n < |s.q.items| ==> s.q.items[n].origin >= limit)
            && (0 < n < |s.q.items| ==> s.q.items[n].packet.isFirst)
            && (n > 0 ==>
                  DropLate(s.q, limit).2 ==
                  if n < |s.q.items| then s.q.items[n].packet.msgno else s.q.nextMsgNo)
  {
    RunKeepsOrderly(InitSender(size, isn), mss, size, es, s);
    LateCountIs(s.q.items, limit);
    DropLateWholeMessages(s.q, s.next, limit);
  }

  /** After any run, a packet asked for again that is stale is given up with all that follows of its message; if
      the next packet to send lies in what is given up, sending goes on with the next message. */
  lemma StaleDropsWholeMessage(size: nat, mss: nat, isn: nat, es: seq<Step>, s: Sender, k: nat, now: int)
    requires size >= 1 && mss >= 1 && Leads(InitSender(size, isn), mss, size, es, s)
    requires k < |s.q.items| && Expired(s.q.items[k], now)
    ensures var (q', r) := ReadAgain(s.q, k, now);
            && r.Stale?
            && var e := k + r.msglen;
               && k < e <= |s.q.items| && s.q.items[e - 1].packet.isLast
               && (forall i :: k <= i < e - 1 ==> !s.q.items[i].packet.isLast)
               && (e < |s.q.items| ==> s.q.items[e].packet.isFirst)
               && r.msgno == s.q.items[k].packet.msgno && q'.items == s.q.items
               && q'.sent == if k < s.q.sent < e then e else s.q.sent
  {
    RunKeepsOrderly(InitSender(size, isn), mss, size, es, s);
    ReadAgainIs(s.q, k, now);
    StaleWholeMessage(s.q, s.next, k, now);
    RunToLast(s.q, s.next, k);
  }
}
