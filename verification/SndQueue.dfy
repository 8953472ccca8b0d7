/** What the send buffer does, stated on the sequence of packets it holds. The first `sent` of them were handed out
    once already. The class in SndRing is proved against these functions. */
module SndQueue {
  import opened SeqNo
  import opened Packets

  const MSGNO_MAX := 0x3FF_FFFF

  /** Message numbers roll over to 1. */
  function NextMsgNo(n: nat): nat {
    if n + 1 > MSGNO_MAX then 1 else n + 1
  }

  /** What a block holds. Times are microseconds, `ttl` is milliseconds or negative for none, and `keySpec` are the
      two bits that name the key a payload is encrypted with. */
  datatype Slot = Slot(packet: Packet, keySpec: bv8, ttl: int, origin: int, rexmit: int)

  /** The caller's control data: a message number of its own, the sequence number of the first packet, the order
      flag, and a source time or 0. */
  datatype Control = Control(msgno: Option<nat>, seqno: Seq, inOrder: bool, ttl: int, srctime: int)

  datatype Queue = Queue(items: seq<Slot>, sent: nat, size: nat, nextMsgNo: nat, bytes: int, lastOrigin: int)

  function PacketsOf(items: seq<Slot>): (ps: seq<Packet>)
    ensures |ps| == |items| && forall i :: 0 <= i < |items| ==> ps[i] == items[i].packet
  {
    seq(|items|, i requires 0 <= i < |items| => items[i].packet)
  }

  function BytesOf(items: seq<Slot>): nat {
    if items == [] then 0 else |items[0].packet.payload| + BytesOf(items[1..])
  }

  lemma {:induction false} BytesAppend(a: seq<Slot>, b: seq<Slot>)
    ensures BytesOf(a + b) == BytesOf(a) + BytesOf(b)
  {
    if a == [] {
      assert a + b == b;
    } else {
      assert (a + b)[1..] == a[1..] + b;
      BytesAppend(a[1..], b);
    }
  }

  lemma BytesSplit(a: seq<Slot>, n: nat)
    requires n <= |a|
    ensures BytesOf(a) == BytesOf(a[..n]) + BytesOf(a[n..])
  {
    BytesAppend(a[..n], a[n..]);
    assert a == a[..n] + a[n..];
  }

  lemma BytesNext(a: seq<Slot>, n: nat)
    requires n < |a|
    ensures BytesOf(a[..n + 1]) == BytesOf(a[..n]) + |a[n].packet.payload|
  {
    assert a[..n + 1] == a[..n] + [a[n]];
    BytesAppend(a[..n], [a[n]]);
  }

  /** What every operation keeps. */
  ghost predicate QueueInv(q: Queue) {
    && q.sent <= |q.items| < q.size
    && q.bytes == BytesOf(q.items)
  }

  // ----- submitting a message

  /** How many packets a message of `len` bytes takes. */
  function PieceCount(len: nat, mss: nat): (n: nat)
    requires mss > 0
    ensures n <= len && (n == 0 <==> len == 0) && (n == 1 <==> 0 < len <= mss)
  {
    if len == 0 then 0 else if len <= mss then 1 else 1 + PieceCount(len - mss, mss)
  }

  /** Where piece `i` begins. */
  function PieceStart(i: nat, mss: nat): nat {
    if i == 0 then 0 else PieceStart(i - 1, mss) + mss
  }

  function Fragment(data: seq<Byte>, mss: nat, first: bool, seqno: Seq, msgno: nat, c: Control, origin: int): Slot {
    Slot(Packet(seqno, msgno, first, |data| <= mss, c.inOrder, if |data| <= mss then data else data[..mss]),
         0, c.ttl, origin, 0)
  }

  /** The packets of a message. */
  function Fragments(data: seq<Byte>, mss: nat, first: bool, seqno: Seq, msgno: nat, c: Control, origin: int): seq<Slot>
    requires mss > 0
    decreases |data|
  {
    if data == [] then []
    else
      [Fragment(data, mss, first, seqno, msgno, c, origin)] +
      if |data| <= mss then [] else Fragments(data[mss..], mss, false, IncSeq(seqno, 1), msgno, c, origin)
  }

  /** The size the ring grows to, `unit` blocks at a time, to have room for `need` packets and the end marker. */
  function GrownSize(size: nat, unit: nat, need: nat): (r: nat)
    requires unit > 0
    ensures r > need && r >= size
    decreases if need >= size then need - size + 1 else 0
  {
    if need >= size then GrownSize(size + unit, unit, need) else size
  }

  function Origin(c: Control, now: int): int {
    if c.srctime != 0 then c.srctime else now
  }

  /** The message number of the next message. */
  function MsgNoFor(q: Queue, c: Control): nat {
    if c.msgno.None? then q.nextMsgNo else c.msgno.value
  }

  /** The queue with a message appended. */
  function Submitted(q: Queue, mss: nat, data: seq<Byte>, c: Control, now: int): Queue
    requires mss > 0
  {
    q.(items := q.items + Fragments(data, mss, true, c.seqno, MsgNoFor(q, c), c, Origin(c, now)),
       nextMsgNo := NextMsgNo(MsgNoFor(q, c)),
       bytes := q.bytes + |data|,
       lastOrigin := Origin(c, now))
  }

  function Add(q: Queue, mss: nat, unit: nat, data: seq<Byte>, c: Control, now: int): Queue
    requires mss > 0 && unit > 0
  {
    Submitted(q.(size := GrownSize(q.size, unit, PieceCount(|data|, mss) + |q.items|)), mss, data, c, now)
  }

  /** The control data that the caller gets back: the number of the next packet, and what the message was stamped
      with. */
  function AddReply(q: Queue, mss: nat, data: seq<Byte>, c: Control, now: int): Control
    requires mss > 0 && |data| <= MAX_SEQ_NO
  {
    c.(msgno := Some(MsgNoFor(q, c)), seqno := IncSeq(c.seqno, PieceCount(|data|, mss)), srctime := Origin(c, now))
  }

  lemma MulMono(a: int, b: int, d: nat)
    requires a >= b
    ensures a * d >= b * d
  {
  }

  lemma DivIs(n: int, d: nat, q: int, r: int)
    requires 0 <= r < d && n == q * d + r
    ensures n / d == q && n % d == r
  {
    var q' := n / d;
    if q > q' {
      MulMono(q, q' + 1, d);
    } else if q < q' {
      MulMono(q', q + 1, d);
    }
  }

  /** The quotient, rounded up. */
  lemma {:induction false} PieceCountIs(len: nat, mss: nat)
    requires 0 < mss
    ensures PieceCount(len, mss) == len / mss + if len % mss != 0 then 1 else 0
  {
    if len < mss {
      DivIs(len, mss, 0, len);
    } else {
      PieceCountIs(len - mss, mss);
      var q, r := (len - mss) / mss, (len - mss) % mss;
      assert len == (q + 1) * mss + r;
      DivIs(len, mss, q + 1, r);
      if len == mss {
        DivIs(0, mss, 0, 0);
      }
    }
  }

  lemma {:induction false} PieceStartIs(i: nat, mss: nat)
    ensures PieceStart(i, mss) == i * mss
  {
    if i > 0 {
      PieceStartIs(i - 1, mss);
    }
  }

  lemma {:induction false} FragmentsCount(data: seq<Byte>, mss: nat, first: bool, seqno: Seq, msgno: nat, c: Control,
                                          origin: int)
    requires mss > 0
    ensures var fs := Fragments(data, mss, first, seqno, msgno, c, origin);
            |fs| == PieceCount(|data|, mss) && BytesOf(fs) == |data|
    decreases |data|
  {
    if |data| > mss {
      FragmentsCount(data[mss..], mss, false, IncSeq(seqno, 1), msgno, c, origin);
    }
  }

  lemma AddKeeps(q: Queue, mss: nat, unit: nat, data: seq<Byte>, c: Control, now: int)
    requires QueueInv(q) && mss > 0 && unit > 0
    ensures QueueInv(Add(q, mss, unit, data, c, now))
    ensures |Add(q, mss, unit, data, c, now).items| == |q.items| + PieceCount(|data|, mss)
  {
    var msgno := MsgNoFor(q, c);
    FragmentsCount(data, mss, true, c.seqno, msgno, c, Origin(c, now));
    BytesAppend(q.items, Fragments(data, mss, true, c.seqno, msgno, c, Origin(c, now)));
  }

  /** What packet `i` of a message is. */
  lemma {:induction false} FragmentAt(data: seq<Byte>, mss: nat, first: bool, seqno: Seq, msgno: nat, c: Control,
                                      origin: int, i: nat)
    requires mss > 0 && i < PieceCount(|data|, mss) <= MAX_SEQ_NO
    ensures var fs := Fragments(data, mss, first, seqno, msgno, c, origin);
            && |fs| == PieceCount(|data|, mss)
            && PieceStart(i, mss) < |data|
            && fs[i] == Fragment(data[PieceStart(i, mss)..], mss, first && i == 0, IncSeq(seqno, i), msgno, c, origin)
            && (fs[i].packet.isLast <==> i == |fs| - 1)
    decreases i
  {
    FragmentsCount(data, mss, first, seqno, msgno, c, origin);
    if i == 0 {
      assert data[0..] == data;
    } else {
      FragmentAt(data[mss..], mss, false, IncSeq(seqno, 1), msgno, c, origin, i - 1);
      assert data[mss..][PieceStart(i - 1, mss)..] == data[PieceStart(i, mss)..];
      IncSeqAdds(seqno, 1, i - 1);
    }
  }

  // ----- handing out packets

  /** Whole milliseconds of a duration, truncated toward zero. */
  function Millis(d: int): int {
    if d < 0 then -((-d) / 1000) else d / 1000
  }

  predicate Expired(it: Slot, now: int) {
    it.ttl >= 0 && Millis(now - it.origin) > it.ttl
  }

  /** What the first reading hands out: the last packet it looked at, its length or 0 for nothing to send, and how
      many packets were skipped. */
  datatype Handout = Handout(slot: Option<Slot>, len: nat, skipped: nat)

  /** The key flags of a packet that is handed out; `None` if it should have been encrypted but cannot be. */
  function Stamp(it: Slot, kflgs: Option<bv8>): Slot {
    if kflgs.None? then it else it.(keySpec := it.keySpec | kflgs.value)
  }

  /** Reading the next packet never handed out. The clock is read anew for each packet: `now(i)` for the i-th. */
  function ReadNewFrom(q: Queue, kflgs: Option<bv8>, now: nat -> int, i: nat, seen: Option<Slot>): (Queue, Handout)
    requires q.sent <= |q.items|
    decreases |q.items| - q.sent
  {
    if q.sent == |q.items| then (q, Handout(seen, 0, i))
    else
      var it := q.items[q.sent];
      var it' := Stamp(it, kflgs);
      var q' := q.(items := q.items[q.sent := it'], sent := q.sent + 1);
      if Expired(it, now(i)) then ReadNewFrom(q', kflgs, now, i + 1, Some(it'))
      else (q', Handout(Some(it'), if kflgs.None? then 0 else |it.packet.payload|, i))
  }

  function ReadNew(q: Queue, kflgs: Option<bv8>, now: nat -> int): (Queue, Handout)
    requires q.sent <= |q.items|
  {
    ReadNewFrom(q, kflgs, now, 0, None)
  }

  lemma {:induction false} StampBytes(items: seq<Slot>, k: nat, it: Slot)
    requires k < |items| && |it.packet.payload| == |items[k].packet.payload|
    ensures BytesOf(items[k := it]) == BytesOf(items)
  {
    BytesSplit(items, k);
    BytesSplit(items[k := it], k);
    assert items[k := it][..k] == items[..k];
    assert items[k := it][k..][1..] == items[k..][1..];
  }

  lemma {:induction false} ReadNewKeeps(q: Queue, kflgs: Option<bv8>, now: nat -> int, i: nat, seen: Option<Slot>)
    requires QueueInv(q)
    ensures QueueInv(ReadNewFrom(q, kflgs, now, i, seen).0)
    decreases |q.items| - q.sent
  {
    if q.sent < |q.items| {
      var it := q.items[q.sent];
      var it' := Stamp(it, kflgs);
      StampBytes(q.items, q.sent, it');
      if Expired(it, now(i)) {
        ReadNewKeeps(q.(items := q.items[q.sent := it'], sent := q.sent + 1), kflgs, now, i + 1, Some(it'));
      }
    }
  }

  /** What reading again hands out: nothing, the packet, or a message that should be dropped because its time is over.
      */
  datatype Again = TooLarge | Resend(slot: Slot) | Stale(msgno: nat, msglen: nat)

  /** The end of the run of packets of message `msgno` from `k` on. */
  function RunEnd(items: seq<Slot>, k: nat, msgno: nat): (e: nat)
    requires k <= |items|
    ensures k <= e <= |items|
    decreases |items| - k
  {
    if k < |items| && items[k].packet.msgno == msgno then RunEnd(items, k + 1, msgno) else k
  }

  lemma {:induction false} RunEndIs(items: seq<Slot>, k: nat, msgno: nat)
    requires k <= |items|
    ensures var e := RunEnd(items, k, msgno);
            && (forall i :: k <= i < e ==> items[i].packet.msgno == msgno)
            && (e < |items| ==> items[e].packet.msgno != msgno)
    decreases |items| - k
  {
    if k < |items| && items[k].packet.msgno == msgno {
      RunEndIs(items, k + 1, msgno);
    }
  }

  /** The index an offset stands for: a negative one for the first packet, one too large for the end. */
  function Clamp(offset: int, n: nat): nat {
    if offset < 0 then 0 else if offset < n then offset else n
  }

  /** The boundary `e` if it passed the point between sent and unsent packets, met after `k`. */
  function Later(sent: nat, k: nat, e: nat): nat {
    if k < sent < e then e else sent
  }

  function ReadAgain(q: Queue, offset: int, now: int): (Queue, Again)
  {
    var k := Clamp(offset, |q.items|);
    if k == |q.items| then (q, TooLarge)
    else
      var it := q.items[k];
      if Expired(it, now) then
        var e := RunEnd(q.items, k + 1, it.packet.msgno);
        (q.(sent := Later(q.sent, k, e)), Stale(it.packet.msgno, e - k))
      else
        (q.(items := q.items[k := it.(rexmit := now)]), Resend(it))
  }

  // ----- removing packets

  function RemoveFirst(q: Queue, n: nat): Queue
    requires n <= |q.items|
  {
    q.(items := q.items[n..],
       sent := if q.sent < n then 0 else q.sent - n,
       bytes := q.bytes - BytesOf(q.items[..n]))
  }

  lemma RemoveKeeps(q: Queue, n: nat)
    requires QueueInv(q) && n <= |q.items|
    ensures QueueInv(RemoveFirst(q, n))
  {
    BytesSplit(q.items, n);
  }

  /** How many packets at the start are older than the limit. */
  function LateCount(items: seq<Slot>, limit: int): (n: nat)
    ensures n <= |items|
  {
    if items != [] && items[0].origin < limit then 1 + LateCount(items[1..], limit) else 0
  }

  /** They are all those before the first that is not. */
  lemma {:induction false} LateCountIs(items: seq<Slot>, limit: int)
    ensures var n := LateCount(items, limit);
            && (forall i :: 0 <= i < n ==> items[i].origin < limit)
            && (n < |items| ==> items[n].origin >= limit)
  {
    if items != [] && items[0].origin < limit {
      LateCountIs(items[1..], limit);
    }
  }

  /** What is known after the first `n` packets were found to be late. */
  ghost predicate LateSoFar(items: seq<Slot>, limit: int, n: nat, bytes: int, msgno: nat) {
    && n <= |items|
    && LateCount(items, limit) == n + LateCount(items[n..], limit)
    && bytes == BytesOf(items[..n])
    && msgno == if n == 0 then 0 else items[n - 1].packet.msgno
  }

  lemma LateStep(items: seq<Slot>, limit: int, n: nat, bytes: int, msgno: nat)
    requires LateSoFar(items, limit, n, bytes, msgno) && n < |items| && items[n].origin < limit
    ensures LateSoFar(items, limit, n + 1, bytes + |items[n].packet.payload|, items[n].packet.msgno)
  {
    BytesNext(items, n);
    assert items[n..][1..] == items[n + 1..];
  }

  /** The new queue, the bytes dropped, and the number after that of the last dropped message. */
  function DropLate(q: Queue, limit: int): (Queue, nat, nat) {
    var n := LateCount(q.items, limit);
    (RemoveFirst(q, n), BytesOf(q.items[..n]), NextMsgNo(if n == 0 then 0 else q.items[n - 1].packet.msgno))
  }

  lemma DropLateIs(q: Queue, limit: int, n: nat, bytes: int, msgno: nat)
    requires LateSoFar(q.items, limit, n, bytes, msgno) && n == LateCount(q.items, limit)
    ensures DropLate(q, limit) == (RemoveFirst(q, n), bytes, NextMsgNo(msgno))
  {
  }
}
