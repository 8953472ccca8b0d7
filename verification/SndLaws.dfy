/** What becomes of each packet submitted: it is handed out, or it was acknowledged, dropped or came to the end of its
    time to live before. And a packet sent again carries the key flags it was first sent with. */
module SndLaws {
  import opened SeqNo
  import opened Packets
  import opened SndQueue
  import opened SndMessages
  import opened EndToEnd
  import opened SndRun

  /** Sending came past a number only by handing it out or passing it; all numbers from the current one on are to
      come. */
  ghost predicate Accounted(s: Sender) {
    && (forall u: nat :: s.base <= u < s.base + s.q.sent ==> u in s.firsts || u in s.passed)
    && (forall u: nat :: u in s.firsts || u in s.passed ==> u < s.base + s.q.sent)
  }

  /** Packets handed out keep their key flags, and those to come have none. */
  ghost predicate Stamped(s: Sender) {
    && (forall u :: u in s.stamps ==> u < s.base + s.q.sent)
    && (forall u :: u in s.firsts ==> u in s.stamps)
    && (forall k :: 0 <= k < |s.q.items| && s.base + k in s.stamps ==> s.q.items[k].keySpec == s.stamps[s.base + k])
    && (forall k :: s.q.sent <= k < |s.q.items| ==> s.q.items[k].keySpec == 0)
  }

  lemma RemovedAccounted(s: Sender, n: nat)
    requires Accounted(s) && Stamped(s) && QueueInv(s.q) && n <= |s.q.items|
    ensures Accounted(Removed(s, n)) && Stamped(Removed(s, n))
  {
    var s' := Removed(s, n);
    forall k | 0 <= k < |s'.q.items| ensures s'.q.items[k] == s.q.items[n + k] && s'.base + k == s.base + (n + k) {
    }
  }

  lemma {:induction false} FragmentsBlank(data: seq<Byte>, mss: nat, first: bool, seqno: Seq, msgno: nat, c: Control,
                                          origin: int, k: nat)
    requires mss > 0 && k < |Fragments(data, mss, first, seqno, msgno, c, origin)|
    ensures Fragments(data, mss, first, seqno, msgno, c, origin)[k].keySpec == 0
    decreases |data|
  {
    if k > 0 {
      FragmentsBlank(data[mss..], mss, false, IncSeq(seqno, 1), msgno, c, origin, k - 1);
    }
  }

  lemma SubmitAccounted(s: Sender, mss: nat, unit: nat, msg: Message, ttl: int, srctime: int, now: int)
    requires Accounted(s) && Stamped(s) && QueueInv(s.q) && mss > 0 && unit > 0 && |msg.data| <= MAX_SEQ_NO
    ensures var s' := Submitting(s, mss, unit, msg, ttl, srctime, now); Accounted(s') && Stamped(s')
  {
    var c := Control(None, s.next, msg.inOrder, ttl, srctime);
    var fs := Fragments(msg.data, mss, true, s.next, s.q.nextMsgNo, c, Origin(c, now));
    var s' := Submitting(s, mss, unit, msg, ttl, srctime, now);
    assert s'.q.items == s.q.items + fs;
    forall k | s.q.sent <= k < |s'.q.items| ensures s'.q.items[k].keySpec == 0 {
      if k >= |s.q.items| {
        FragmentsBlank(msg.data, mss, true, s.next, s.q.nextMsgNo, c, Origin(c, now), k - |s.q.items|);
      }
    }
  }

  /** Only the slots that were passed get key flags. */
  lemma {:induction false} ReadNewStamps(q: Queue, kflgs: Option<bv8>, now: nat -> int, i: nat, seen: Option<Slot>,
                                         k: nat)
    requires q.sent <= |q.items| && k < |q.items|
    ensures var (q', out) := ReadNewFrom(q, kflgs, now, i, seen);
            && |q'.items| == |q.items| && q.sent <= q'.sent <= |q.items|
            && (k < q.sent || k >= q'.sent ==> q'.items[k] == q.items[k])
            && (q.sent <= k < q'.sent ==> q'.items[k] == Stamp(q.items[k], kflgs))
    decreases |q.items| - q.sent
  {
    if q.sent < |q.items| {
      var it' := Stamp(q.items[q.sent], kflgs);
      if Expired(q.items[q.sent], now(i)) {
        ReadNewStamps(q.(items := q.items[q.sent := it'], sent := q.sent + 1), kflgs, now, i + 1, Some(it'), k);
      }
    }
  }

  /** A packet that is handed out first carries exactly the flags it was asked to. */
  lemma StampIsFlags(it: Slot, f: bv8)
    requires it.keySpec == 0
    ensures Stamp(it, Some(f)).keySpec == f
  {
  }

  lemma ReadingAccounted(s: Sender, kflgs: Option<bv8>, q': Queue, out: Handout)
    requires Accounted(s) && s.q.sent <= q'.sent && Handed(s.q, kflgs, q', out, s.q.sent + out.skipped)
    ensures Accounted(AfterReading(s, kflgs, q', out))
  {
    var s' := AfterReading(s, kflgs, q', out);
    var j := s.q.sent + out.skipped;
    if j < |s.q.items| && kflgs.Some? {
      assert forall u :: u in s'.firsts <==> u in s.firsts || u == s.base + j;
    }
  }

  lemma ReadingStamped(s: Sender, kflgs: Option<bv8>, q': Queue, out: Handout)
    requires Accounted(s) && Stamped(s) && s.q.sent <= q'.sent
    requires Handed(s.q, kflgs, q', out, s.q.sent + out.skipped) && |q'.items| == |s.q.items|
    requires forall k :: 0 <= k < |s.q.items| && (k < s.q.sent || k >= q'.sent) ==> q'.items[k] == s.q.items[k]
    ensures Stamped(AfterReading(s, kflgs, q', out))
  {
    var s' := AfterReading(s, kflgs, q', out);
    var j := s.q.sent + out.skipped;
    if j < |s.q.items| && kflgs.Some? {
      assert forall u :: u in s'.firsts <==> u in s.firsts || u == s.base + j;
    }
  }

  lemma ReadNewLeaves(q: Queue, kflgs: Option<bv8>, clock: nat -> int, q': Queue)
    requires q.sent <= |q.items| && q' == ReadNew(q, kflgs, clock).0 && |q'.items| == |q.items|
    ensures q.items == [] || q.sent <= q'.sent
    ensures forall k :: 0 <= k < |q.items| && (k < q.sent || k >= q'.sent) ==> q'.items[k] == q.items[k]
  {
    forall k | 0 <= k < |q.items|
      ensures q.sent <= q'.sent && (k < q.sent || k >= q'.sent ==> q'.items[k] == q.items[k])
    {
      ReadNewStamps(q, kflgs, clock, 0, None, k);
    }
    if q.items != [] {
      ReadNewStamps(q, kflgs, clock, 0, None, 0);
    }
  }

  lemma SentNewAccounted(s: Sender, kflgs: Option<bv8>, clock: nat -> int)
    requires Accounted(s) && Stamped(s) && QueueInv(s.q)
    ensures var s' := SentNew(s, kflgs, clock); Accounted(s') && Stamped(s')
  {
    var (q', out) := ReadNew(s.q, kflgs, clock);
    ReadNewShape(s.q, kflgs, clock, 0, None);
    assert |PacketsOf(q'.items)| == |PacketsOf(s.q.items)|;
    ReadNewLeaves(s.q, kflgs, clock, q');
    ReadingAccounted(s, kflgs, q', out);
    ReadingStamped(s, kflgs, q', out);
  }

  lemma SentAgainAccounted(s: Sender, offset: nat, now: int)
    requires Accounted(s) && Stamped(s) && QueueInv(s.q)
    ensures var s' := SentAgain(s, offset, now); Accounted(s') && Stamped(s')
  {
    ReadAgainIs(s.q, offset, now);
  }

  lemma StepAccounted(s: Sender, mss: nat, unit: nat, e: Step)
    requires Accounted(s) && Stamped(s) && mss > 0 && unit > 0 && QueueInv(s.q) && Possible(s, e)
    ensures Accounted(Next(s, mss, unit, e)) && Stamped(Next(s, mss, unit, e))
  {
    match e
    case Submit(msg, ttl, srctime, now) => SubmitAccounted(s, mss, unit, msg, ttl, srctime, now);
    case Ack(n) => RemovedAccounted(s, n);
    case DropTooLate(limit) => RemovedAccounted(s, LateCount(s.q.items, limit));
    case SendNew(kflgs, clock) => SentNewAccounted(s, kflgs, clock);
    case SendAgain(offset, now) => SentAgainAccounted(s, offset, now);
  }

  lemma {:induction false} RunAccounted(s: Sender, mss: nat, unit: nat, es: seq<Step>, s': Sender)
    requires Accounted(s) && Stamped(s) && Leads(s, mss, unit, es, s')
    ensures Accounted(s') && Stamped(s')
    decreases |es|
  {
    if es != [] {
      StepAccounted(s, mss, unit, es[0]);
      RunAccounted(Next(s, mss, unit, es[0]), mss, unit, es[1..], s');
    }
  }

  /** After any run, every packet that sending came past was acknowledged or dropped, handed out, or passed. */
  lemma NothingIsSkipped(size: nat, mss: nat, isn: nat, es: seq<Step>, s: Sender, u: nat)
    requires size >= 1 && mss >= 1 && Leads(InitSender(size, isn), mss, size, es, s)
    requires u < s.base + s.q.sent
    ensures u < s.base || u in s.firsts || u in s.passed
  {
    RunAccounted(InitSender(size, isn), mss, size, es, s);
  }

  /** Packets `k` to `i` of the queue belong to one message. */
  ghost predicate OneMessage(items: seq<Slot>, k: nat, i: nat) {
    k <= i < |items| && forall j :: k <= j < i ==> !items[j].packet.isLast
  }

  /** Why the step passed packet `i` of the queue: its time to live was over when the clock was read for it, or it could
      not be encrypted; or it belongs to the message of a packet asked for again whose time to live was over. */
  ghost predicate Justified(q: Queue, e: Step, i: nat) {
    && i < |q.items|
    && match e
       case SendNew(kflgs, clock) => i >= q.sent && (Expired(q.items[i], clock(i - q.sent)) || kflgs.None?)
       case SendAgain(k, now) => k < i && Expired(q.items[k], now) && OneMessage(q.items, k, i)
       case _ => false
  }

  lemma SendPasses(s: Sender, kflgs: Option<bv8>, clock: nat -> int, u: nat)
    requires QueueInv(s.q) && u in SentNew(s, kflgs, clock).passed && u !in s.passed
    ensures u >= s.base && Justified(s.q, SendNew(kflgs, clock), u - s.base)
  {
    ReadNewShape(s.q, kflgs, clock, 0, None);
    ReadNewSkips(s.q, kflgs, clock, 0, None, u - s.base - s.q.sent);
  }

  lemma StalePasses(s: Sender, k: nat, now: int, u: nat)
    requires QueueInv(s.q) && OrderlyQueue(s.q, s.next) && u in SentAgain(s, k, now).passed && u !in s.passed
    ensures u >= s.base && Justified(s.q, SendAgain(k, now), u - s.base)
  {
    ReadAgainIs(s.q, k, now);
    StaleWholeMessage(s.q, s.next, k, now);
  }

  /** After any run, a step passes a packet only with a reason. */
  lemma PassedWithReason(size: nat, mss: nat, isn: nat, es: seq<Step>, s: Sender, e: Step, u: nat)
    requires size >= 1 && mss >= 1 && Leads(InitSender(size, isn), mss, size, es, s)
    requires QueueInv(s.q) && Possible(s, e)
    requires u in Next(s, mss, size, e).passed && u !in s.passed
    ensures u >= s.base && Justified(s.q, e, u - s.base)
  {
    RunKeepsOrderly(InitSender(size, isn), mss, size, es, s);
    match e
    case SendNew(kflgs, clock) => SendPasses(s, kflgs, clock, u);
    case SendAgain(k, now) => StalePasses(s, k, now, u);
    case _ =>
  }

  /** Whatever can be sent is sent: the current packet is handed out with the flags given, under its number, and sending
      goes on after it, unless its time to live is over. */
  lemma SendsTheNext(size: nat, mss: nat, isn: nat, es: seq<Step>, s: Sender, f: bv8, clock: nat -> int)
    requires size >= 1 && mss >= 1 && Leads(InitSender(size, isn), mss, size, es, s) && QueueInv(s.q)
    requires s.q.sent < |s.q.items| && !Expired(s.q.items[s.q.sent], clock(0))
    ensures var u := s.base + s.q.sent;
            var s' := Next(s, mss, size, SendNew(Some(f), clock));
            && s'.emitted == s.emitted + {(u, s.q.items[s.q.sent].packet)}
            && s'.firsts == s.firsts + [u] && s'.q.sent == s.q.sent + 1
            && u in s'.stamps && s'.stamps[u] == f
  {
    RunAccounted(InitSender(size, isn), mss, size, es, s);
    StampIsFlags(s.q.items[s.q.sent], f);
  }

  /** After any run, a packet sent again carries the key flags it was first sent with: its payload stays encrypted with
      that key. */
  lemma SentAgainAsFirst(size: nat, mss: nat, isn: nat, es: seq<Step>, s: Sender, k: nat, now: int)
    requires size >= 1 && mss >= 1 && Leads(InitSender(size, isn), mss, size, es, s)
    requires ReadAgain(s.q, k, now).1.Resend? && s.base + k in s.firsts
    ensures s.base + k in s.stamps && ReadAgain(s.q, k, now).1.slot.keySpec == s.stamps[s.base + k]
  {
    RunAccounted(InitSender(size, isn), mss, size, es, s);
    ReadAgainIs(s.q, k, now);
  }

  // ----- what submitting returns

  /** Packet `i` of a message that is submitted, in the queue. */
  lemma AddedPacket(q: Queue, mss: nat, unit: nat, data: seq<Byte>, c: Control, now: int, i: nat)
    requires mss > 0 && unit > 0 && |data| <= MAX_SEQ_NO && i < PieceCount(|data|, mss)
    ensures var items := Add(q, mss, unit, data, c, now).items;
            && |items| == |q.items| + PieceCount(|data|, mss)
            && items[|q.items| + i].packet.seqno == IncSeq(c.seqno, i)
            && items[|q.items| + i].packet.msgno == MsgNoFor(q, c)
            && items[|q.items| + i].origin == Origin(c, now)
            && items[|q.items| + i].ttl == c.ttl && items[|q.items| + i].keySpec == 0
  {
    var n, o := MsgNoFor(q, c), Origin(c, now);
    FragmentAt(data, mss, true, c.seqno, n, c, o, i);
    assert Add(q, mss, unit, data, c, now).items == q.items + Fragments(data, mss, true, c.seqno, n, c, o);
  }

  /** The control data handed back: the number all packets of the message carry, the sequence number after the last of
      them, and the time they are stamped with, which is the caller's if there is one. */
  lemma AddReplyIs(q: Queue, mss: nat, unit: nat, data: seq<Byte>, c: Control, now: int, i: nat)
    requires mss > 0 && unit > 0 && 0 < |data| <= MAX_SEQ_NO && i < PieceCount(|data|, mss)
    ensures var items, r := Add(q, mss, unit, data, c, now).items, AddReply(q, mss, data, c, now);
            && |items| == |q.items| + PieceCount(|data|, mss)
            && r.msgno == Some(items[|q.items| + i].packet.msgno) && r.srctime == items[|q.items| + i].origin
            && r.seqno == IncSeq(items[|items| - 1].packet.seqno, 1)
            && r.srctime == (if c.srctime != 0 then c.srctime else now)
            && (c.msgno.Some? ==> r.msgno == c.msgno)
  {
    var last := PieceCount(|data|, mss) - 1;
    AddedPacket(q, mss, unit, data, c, now, i);
    AddedPacket(q, mss, unit, data, c, now, last);
    IncSeqAdds(c.seqno, last, 1);
  }

  /** The ring grows by whole units, and by no more than it needs. */
  lemma {:induction false} GrownJustEnough(size: nat, unit: nat, need: nat)
    requires unit > 0
    ensures var r := GrownSize(size, unit, need);
            && r > need && (r > size ==> r - unit <= need)
            && exists n: nat :: r == size + n * unit
    decreases if need >= size then need - size + 1 else 0
  {
    if need >= size {
      GrownJustEnough(size + unit, unit, need);
      var n: nat :| GrownSize(size + unit, unit, need) == size + unit + n * unit;
      assert size + unit + n * unit == size + (n + 1) * unit;
    } else {
      assert size == size + 0 * unit;
    }
  }
}
