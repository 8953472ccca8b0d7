/** Messages in the send buffer: how they are cut into packets, and that they are removed as a whole. */
module SndMessages {
  import opened SeqNo
  import opened Packets
  import opened SndQueue

  lemma PayloadsFront(f: Slot, rest: seq<Slot>)
    ensures Payloads(PacketsOf([f] + rest)) == f.packet.payload + Payloads(PacketsOf(rest))
  {
    assert PacketsOf([f] + rest)[1..] == PacketsOf(rest);
  }

  /** Cutting loses nothing: the payloads of the packets make up the message. */
  lemma {:induction false} FragmentsRejoin(data: seq<Byte>, mss: nat, first: bool, seqno: Seq, msgno: nat, c: Control,
                                           origin: int)
    requires mss > 0
    ensures Payloads(PacketsOf(Fragments(data, mss, first, seqno, msgno, c, origin))) == data
    decreases |data|
  {
    if data != [] {
      var f := Fragment(data, mss, first, seqno, msgno, c, origin);
      if |data| > mss {
        FragmentsRejoin(data[mss..], mss, false, IncSeq(seqno, 1), msgno, c, origin);
        PayloadsFront(f, Fragments(data[mss..], mss, false, IncSeq(seqno, 1), msgno, c, origin));
        assert data == data[..mss] + data[mss..];
      } else {
        PayloadsFront(f, []);
      }
    }
  }

  /** Two packets next to each other: they belong to one message and share its number, flags, time to live and
      origin, or the second begins the message with the next number. */
  ghost predicate Follows(a: Slot, b: Slot) {
    && b.packet.seqno == IncSeq(a.packet.seqno, 1)
    && (a.packet.isLast <==> b.packet.isFirst)
    && (if a.packet.isLast then b.packet.msgno == NextMsgNo(a.packet.msgno)
        else
          && b.packet.msgno == a.packet.msgno && b.packet.inOrder == a.packet.inOrder
          && b.ttl == a.ttl && b.origin == a.origin)
  }

  ghost predicate Orderly(items: seq<Slot>) {
    forall i :: 0 <= i && i + 1 < |items| ==> Follows(items[i], items[i + 1])
  }

  /** The queue of a sender that numbers its messages itself; `next` is the sequence number of the next packet. */
  ghost predicate OrderlyQueue(q: Queue, next: Seq) {
    && 1 <= q.nextMsgNo <= MSGNO_MAX
    && Orderly(q.items)
    && (forall i :: 0 <= i < |q.items| ==> 1 <= q.items[i].packet.msgno <= MSGNO_MAX)
    && (q.items != [] ==>
          var last := q.items[|q.items| - 1];
          && last.packet.isLast && q.nextMsgNo == NextMsgNo(last.packet.msgno)
          && next == IncSeq(last.packet.seqno, 1))
  }

  lemma {:induction false} FragmentsOrderly(data: seq<Byte>, mss: nat, first: bool, seqno: Seq, msgno: nat,
                                            c: Control, origin: int)
    requires mss > 0 && data != [] && |data| <= MAX_SEQ_NO
    ensures var fs := Fragments(data, mss, first, seqno, msgno, c, origin);
            && Orderly(fs) && |fs| == PieceCount(|data|, mss)
            && fs[0].packet.isFirst == first && fs[0].packet.seqno == seqno
            && fs[|fs| - 1].packet.isLast && fs[|fs| - 1].packet.seqno == IncSeq(seqno, |fs| - 1)
            && forall i :: 0 <= i < |fs| ==>
                 fs[i].packet.msgno == msgno && fs[i].packet.inOrder == c.inOrder && fs[i].ttl == c.ttl &&
                     fs[i].origin == origin
    decreases |data|
  {
    FragmentsCount(data, mss, first, seqno, msgno, c, origin);
    if |data| > mss {
      FragmentsOrderly(data[mss..], mss, false, IncSeq(seqno, 1), msgno, c, origin);
      var rest := Fragments(data[mss..], mss, false, IncSeq(seqno, 1), msgno, c, origin);
      IncSeqAdds(seqno, 1, |rest| - 1);
      var fs := Fragments(data, mss, first, seqno, msgno, c, origin);
      forall i | 0 <= i && i + 1 < |fs| ensures Follows(fs[i], fs[i + 1]) {
        if i > 0 {
          assert fs[i] == rest[i - 1] && fs[i + 1] == rest[i];
        }
      }
    }
  }

  lemma OrderlyAppend(a: seq<Slot>, b: seq<Slot>)
    requires Orderly(a) && Orderly(b) && (a != [] && b != [] ==> Follows(a[|a| - 1], b[0]))
    ensures Orderly(a + b)
  {
    forall i | 0 <= i && i + 1 < |a + b| ensures Follows((a + b)[i], (a + b)[i + 1]) {
      if i >= |a| {
        assert (a + b)[i] == b[i - |a|] && (a + b)[i + 1] == b[i + 1 - |a|];
      }
    }
  }

  lemma AddKeepsOrderly(q: Queue, next: Seq, mss: nat, unit: nat, data: seq<Byte>, c: Control, now: int)
    requires OrderlyQueue(q, next) && mss > 0 && unit > 0 && data != [] && |data| <= MAX_SEQ_NO
    requires c.msgno.None? && c.seqno == next
    ensures OrderlyQueue(Add(q, mss, unit, data, c, now), AddReply(q, mss, data, c, now).seqno)
  {
    var fs := Fragments(data, mss, true, next, q.nextMsgNo, c, Origin(c, now));
    FragmentsOrderly(data, mss, true, next, q.nextMsgNo, c, Origin(c, now));
    OrderlyAppend(q.items, fs);
    IncSeqAdds(next, |fs| - 1, 1);
    var q' := Add(q, mss, unit, data, c, now);
    assert q'.items[|q'.items| - 1] == fs[|fs| - 1];
  }

  lemma RemoveKeepsOrderly(q: Queue, next: Seq, n: nat)
    requires OrderlyQueue(q, next) && n <= |q.items|
    ensures OrderlyQueue(RemoveFirst(q, n), next)
  {
    var items := q.items[n..];
    forall i | 0 <= i && i + 1 < |items| ensures Follows(items[i], items[i + 1]) {
      assert items[i] == q.items[n + i] && items[i + 1] == q.items[n + i + 1];
    }
  }

  /** The same packets with the same times to live and origins. */
  ghost predicate Alike(a: seq<Slot>, b: seq<Slot>) {
    && |a| == |b|
    && forall i :: 0 <= i < |a| ==> a[i].packet == b[i].packet && a[i].ttl == b[i].ttl && a[i].origin == b[i].origin
  }

  lemma AlikeKeepsOrderly(q: Queue, q': Queue, next: Seq)
    requires OrderlyQueue(q, next) && Alike(q.items, q'.items) && q'.nextMsgNo == q.nextMsgNo
    ensures OrderlyQueue(q', next)
  {
    forall i | 0 <= i && i + 1 < |q'.items| ensures Follows(q'.items[i], q'.items[i + 1]) {
      assert Follows(q.items[i], q.items[i + 1]);
    }
  }

  /** Handing out packets changes none of them but for key flags and times of sending. */
  lemma {:induction false} ReadNewAlike(q: Queue, kflgs: Option<bv8>, now: nat -> int, i: nat, seen: Option<Slot>)
    requires q.sent <= |q.items|
    ensures var q' := ReadNewFrom(q, kflgs, now, i, seen).0;
            Alike(q.items, q'.items) && q'.nextMsgNo == q.nextMsgNo
    decreases |q.items| - q.sent
  {
    if q.sent < |q.items| {
      var it' := Stamp(q.items[q.sent], kflgs);
      if Expired(q.items[q.sent], now(i)) {
        ReadNewAlike(q.(items := q.items[q.sent := it'], sent := q.sent + 1), kflgs, now, i + 1, Some(it'));
      }
    }
  }

  lemma ReadNewKeepsOrderly(q: Queue, next: Seq, kflgs: Option<bv8>, now: nat -> int)
    requires OrderlyQueue(q, next) && q.sent <= |q.items|
    ensures OrderlyQueue(ReadNew(q, kflgs, now).0, next)
  {
    ReadNewAlike(q, kflgs, now, 0, None);
    AlikeKeepsOrderly(q, ReadNew(q, kflgs, now).0, next);
  }

  lemma ReadAgainKeepsOrderly(q: Queue, next: Seq, offset: int, now: int)
    requires OrderlyQueue(q, next)
    ensures OrderlyQueue(ReadAgain(q, offset, now).0, next)
  {
    AlikeKeepsOrderly(q, ReadAgain(q, offset, now).0, next);
  }

  /** Late packets are dropped by whole messages: what remains begins with a message unless nothing was dropped, and
      the reported number is that of the first message that remains or is still to come. */
  lemma DropLateWholeMessages(q: Queue, next: Seq, limit: int)
    requires OrderlyQueue(q, next)
    ensures var n := LateCount(q.items, limit);
            && (0 < n < |q.items| ==> q.items[n].packet.isFirst)
            && (n > 0 ==> DropLate(q, limit).2 == if n < |q.items| then q.items[n].packet.msgno else q.nextMsgNo)
            && DropLate(q, limit).1 == BytesOf(q.items) - BytesOf(DropLate(q, limit).0.items)
            && OrderlyQueue(DropLate(q, limit).0, next)
  {
    var n := LateCount(q.items, limit);
    LateCountIs(q.items, limit);
    BytesSplit(q.items, n);
    RemoveKeepsOrderly(q, next, n);
    if 0 < n < |q.items| {
      assert Follows(q.items[n - 1], q.items[n]);
    }
  }

  /** From inside a message its number runs to its last packet. */
  lemma {:induction false} RunToLast(q: Queue, next: Seq, k: nat)
    requires OrderlyQueue(q, next) && k < |q.items|
    ensures var e := RunEnd(q.items, k + 1, q.items[k].packet.msgno);
            && q.items[e - 1].packet.isLast
            && (forall i :: k <= i < e - 1 ==> !q.items[i].packet.isLast)
            && (e < |q.items| ==> q.items[e].packet.isFirst)
    decreases |q.items| - k
  {
    if k + 1 < |q.items| {
      assert Follows(q.items[k], q.items[k + 1]);
      if !q.items[k].packet.isLast {
        RunToLast(q, next, k + 1);
      }
    }
  }

  /** Offset k is packet k: it is handed out again, and only its time of sending changes, unless its time to live is
      over; beyond the queue there is none. */
  lemma ReadAgainIs(q: Queue, offset: nat, now: int)
    ensures var (q', r) := ReadAgain(q, offset, now);
            && (r.TooLarge? <==> offset >= |q.items|)
            && (r.Stale? <==> offset < |q.items| && Expired(q.items[offset], now))
            && (r.Resend? ==>
                  && r.slot == q.items[offset]
                  && |q'.items| == |q.items| && q' == q.(items := q'.items)
                  && (forall i :: 0 <= i < |q.items| && i != offset ==> q'.items[i] == q.items[i])
                  && q'.items[offset] == q.items[offset].(rexmit := now))
            && (r.TooLarge? ==> q' == q)
  {
  }

  /** A stale message is given up through its last packet: its length is counted from the packet asked for, and what
      was not sent yet goes on after it if it reached into the message. */
  lemma StaleWholeMessage(q: Queue, next: Seq, k: nat, now: int)
    requires OrderlyQueue(q, next) && k < |q.items| && Expired(q.items[k], now)
    ensures var (q', r) := ReadAgain(q, k, now);
            && r.Stale?
            && var e := k + r.msglen;
               && k < e <= |q.items| && r.msgno == q.items[k].packet.msgno
               && q.items[e - 1].packet.isLast
               && (forall i :: k <= i < e - 1 ==> !q.items[i].packet.isLast)
               && q'.items == q.items
               && (k < q.sent ==> q'.sent == if q.sent < e then e else q.sent)
               && (k >= q.sent ==> q'.sent == q.sent)
  {
    ReadAgainIs(q, k, now);
    RunToLast(q, next, k);
  }

  /** The time to live is counted in whole milliseconds: it is over once one more than that has passed. */
  lemma ExpiredIff(it: Slot, now: int)
    ensures Expired(it, now) <==> it.ttl >= 0 && now - it.origin >= (it.ttl + 1) * 1000
  {
  }

  /** A reading passed the packets before index `k` and handed out that one, or came to the end. Packets only get
      their key flags. */
  ghost predicate Handed(q: Queue, kflgs: Option<bv8>, q': Queue, out: Handout, k: int) {
    && q.sent <= k <= |q.items|
    && PacketsOf(q'.items) == PacketsOf(q.items)
    && q' == q.(items := q'.items, sent := q'.sent)
    && (if k == |q.items| then q'.sent == k && out.len == 0
        else
          && q'.sent == k + 1
          && out.slot == Some(Stamp(q.items[k], kflgs)) && q'.items[k] == out.slot.value
          && out.len == if kflgs.None? then 0 else |q.items[k].packet.payload|)
  }

  lemma {:induction false} ReadNewShape(q: Queue, kflgs: Option<bv8>, now: nat -> int, i: nat, seen: Option<Slot>)
    requires q.sent <= |q.items|
    ensures var (q', out) := ReadNewFrom(q, kflgs, now, i, seen);
            Handed(q, kflgs, q', out, q.sent + out.skipped - i)
    decreases |q.items| - q.sent
  {
    if q.sent < |q.items| {
      var it := q.items[q.sent];
      var it' := Stamp(it, kflgs);
      var q1 := q.(items := q.items[q.sent := it'], sent := q.sent + 1);
      assert PacketsOf(q1.items) == PacketsOf(q.items);
      if Expired(it, now(i)) {
        ReadNewShape(q1, kflgs, now, i + 1, Some(it'));
      }
    }
  }

  /** The skipped packets are those whose time was over when the clock was read for them, and the one handed out is
      the first whose time was not. */
  lemma {:induction false} ReadNewSkips(q: Queue, kflgs: Option<bv8>, now: nat -> int, i: nat, seen: Option<Slot>,
                                        j: nat)
    requires q.sent <= |q.items|
    ensures var out := ReadNewFrom(q, kflgs, now, i, seen).1;
            i <= j <= out.skipped && q.sent + (j - i) < |q.items| ==>
              (Expired(q.items[q.sent + (j - i)], now(j)) <==> j < out.skipped)
    decreases |q.items| - q.sent
  {
    if q.sent < |q.items| {
      var it' := Stamp(q.items[q.sent], kflgs);
      if Expired(q.items[q.sent], now(i)) {
        var q1 := q.(items := q.items[q.sent := it'], sent := q.sent + 1);
        ReadNewSkips(q1, kflgs, now, i + 1, Some(it'), j);
        ReadNewShape(q1, kflgs, now, i + 1, Some(it'));
      }
    }
  }
}
