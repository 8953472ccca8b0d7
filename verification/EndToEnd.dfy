/** From the sender's queue to the receiver's reads: every message that is read is one that was submitted. */
module EndToEnd {
  import opened SeqNo
  import opened Packets
  import opened RcvWindow
  import opened RcvWindowInvariant
  import opened RcvRun
  import opened RcvDelivery
  import opened SndQueue
  import opened SndMessages

  datatype Message = Message(data: seq<Byte>, inOrder: bool)

  ghost predicate Submittable(msgs: seq<Message>) {
    forall k :: 0 <= k < |msgs| ==> 0 < |msgs[k].data| <= MAX_SEQ_NO
  }

  /** The number of the k-th message. */
  function NumberAt(k: nat): (n: nat)
    ensures 1 <= n <= MSGNO_MAX
  {
    if k == 0 then 1 else NextMsgNo(NumberAt(k - 1))
  }

  /** Message numbers count from 1 and start again after the highest. */
  lemma {:induction false} NumberAtIs(k: nat)
    ensures NumberAt(k) == 1 + k % 0x3FF_FFFF
  {
    if k > 0 {
      NumberAtIs(k - 1);
    }
  }

  function MessagePackets(msg: Message, k: nat, mss: nat, seqno: Seq): seq<Packet>
    requires mss > 0
  {
    PacketsOf(Fragments(msg.data, mss, true, seqno, NumberAt(k), Control(None, seqno, msg.inOrder, -1, 0), 0))
  }

  /** All packets of all messages, the first of them with number `isn`. */
  function StreamOf(msgs: seq<Message>, mss: nat, isn: nat): Stream
    requires mss > 0
  {
    if msgs == [] then []
    else
      var n := |msgs| - 1;
      var st := StreamOf(msgs[..n], mss, isn);
      st + MessagePackets(msgs[n], n, mss, Wrap(isn + |st|))
  }

  /** The stream of `msgs`, which are `pre` and then `msg`. */
  lemma {:induction false} StreamNext(msgs: seq<Message>, pre: seq<Message>, msg: Message, mss: nat, isn: nat)
    requires mss > 0 && msgs != [] && msgs[..|msgs| - 1] == pre && msgs[|msgs| - 1] == msg
    ensures var st := StreamOf(pre, mss, isn);
            StreamOf(msgs, mss, isn) == st + MessagePackets(msg, |pre|, mss, Wrap(isn + |st|))
  {
  }

  /** Where message `k` begins in the stream. */
  function StartOf(msgs: seq<Message>, mss: nat, k: nat): nat
    requires mss > 0 && k <= |msgs|
  {
    if k == 0 then 0 else StartOf(msgs, mss, k - 1) + PieceCount(|msgs[k - 1].data|, mss)
  }

  lemma {:induction false} StartOfPrefix(msgs: seq<Message>, mss: nat, n: nat, k: nat)
    requires mss > 0 && k <= n <= |msgs|
    ensures StartOf(msgs[..n], mss, k) == StartOf(msgs, mss, k)
  {
    if k > 0 {
      StartOfPrefix(msgs, mss, n, k - 1);
    }
  }

  /** The packets of message `k`, and what each of them is. */
  lemma MessageShape(msg: Message, k: nat, mss: nat, seqno: Seq, i: nat)
    requires mss > 0 && 0 < |msg.data| <= MAX_SEQ_NO && i < PieceCount(|msg.data|, mss)
    ensures var ps := MessagePackets(msg, k, mss, seqno);
            && |ps| == PieceCount(|msg.data|, mss)
            && ps[i].seqno == IncSeq(seqno, i)
            && (ps[i].isFirst <==> i == 0) && (ps[i].isLast <==> i == |ps| - 1)
            && ps[i].msgno == NumberAt(k) && ps[i].inOrder == msg.inOrder
  {
    var c := Control(None, seqno, msg.inOrder, -1, 0);
    FragmentAt(msg.data, mss, true, seqno, NumberAt(k), c, 0, i);
  }

  lemma MessageCount(msg: Message, k: nat, mss: nat, seqno: Seq)
    requires mss > 0 && 0 < |msg.data| <= MAX_SEQ_NO
    ensures |MessagePackets(msg, k, mss, seqno)| == PieceCount(|msg.data|, mss) > 0
  {
    MessageShape(msg, k, mss, seqno, 0);
  }

  lemma {:induction false} StreamLength(msgs: seq<Message>, mss: nat, isn: nat)
    requires mss > 0 && Submittable(msgs)
    ensures |StreamOf(msgs, mss, isn)| == StartOf(msgs, mss, |msgs|)
  {
    if msgs != [] {
      var n := |msgs| - 1;
      StreamLength(msgs[..n], mss, isn);
      StartOfPrefix(msgs, mss, n, n);
      StreamNext(msgs, msgs[..n], msgs[n], mss, isn);
      MessageCount(msgs[n], n, mss, Wrap(isn + |StreamOf(msgs[..n], mss, isn)|));
    }
  }

  /** The packets of the first messages are the first packets. */
  lemma {:induction false} StreamPrefix(msgs: seq<Message>, mss: nat, isn: nat, k: nat)
    requires mss > 0 && Submittable(msgs) && k <= |msgs|
    ensures StreamOf(msgs[..k], mss, isn) <= StreamOf(msgs, mss, isn)
    ensures |StreamOf(msgs[..k], mss, isn)| == StartOf(msgs, mss, k)
    decreases |msgs|
  {
    if k == |msgs| {
      assert msgs[..k] == msgs;
      StreamLength(msgs, mss, isn);
    } else {
      var n := |msgs| - 1;
      StreamPrefix(msgs[..n], mss, isn, k);
      StartOfPrefix(msgs, mss, n, k);
      assert msgs[..n][..k] == msgs[..k];
    }
  }

  lemma Middle(st: Stream, pre: Stream, ps: Stream)
    requires pre + ps <= st
    ensures st[|pre|..|pre| + |ps|] == ps
  {
    assert forall i :: 0 <= i < |ps| ==> (pre + ps)[|pre| + i] == ps[i];
  }

  /** The stream is the messages one after the other. */
  lemma StreamIs(msgs: seq<Message>, mss: nat, isn: nat, k: nat)
    requires mss > 0 && Submittable(msgs) && k < |msgs|
    ensures var st := StreamOf(msgs, mss, isn);
            var a, b := StartOf(msgs, mss, k), StartOf(msgs, mss, k + 1);
            a <= b <= |st| && st[a..b] == MessagePackets(msgs[k], k, mss, Wrap(isn + a))
  {
    StreamPrefix(msgs, mss, isn, k);
    StreamPrefix(msgs, mss, isn, k + 1);
    assert msgs[..k + 1][..k] == msgs[..k];
    var pre := StreamOf(msgs[..k], mss, isn);
    var ps := MessagePackets(msgs[k], k, mss, Wrap(isn + |pre|));
    StreamNext(msgs[..k + 1], msgs[..k], msgs[k], mss, isn);
    Middle(StreamOf(msgs, mss, isn), pre, ps);
  }

  /** The message that packet `u` belongs to. */
  function MessageOf(msgs: seq<Message>, mss: nat, k: nat, u: nat): (r: nat)
    requires mss > 0 && k <= |msgs| && u < StartOf(msgs, mss, k)
    ensures r < k && StartOf(msgs, mss, r) <= u < StartOf(msgs, mss, r + 1)
  {
    if u >= StartOf(msgs, mss, k - 1) then k - 1 else MessageOf(msgs, mss, k - 1, u)
  }

  /** What packet `u` of the stream is. */
  lemma {:induction false} PacketShape(msgs: seq<Message>, mss: nat, isn: nat, k: nat, u: nat)
    requires mss > 0 && Submittable(msgs) && k < |msgs|
    requires StartOf(msgs, mss, k) <= u < StartOf(msgs, mss, k + 1)
    ensures var st := StreamOf(msgs, mss, isn);
            && u < |st|
            && st[u].seqno == Wrap(isn + u)
            && (st[u].isFirst <==> u == StartOf(msgs, mss, k))
            && (st[u].isLast <==> u + 1 == StartOf(msgs, mss, k + 1))
            && st[u].msgno == NumberAt(k) && st[u].inOrder == msgs[k].inOrder
  {
    var a, b := StartOf(msgs, mss, k), StartOf(msgs, mss, k + 1);
    var i: nat := u - a;
    var ps := MessagePackets(msgs[k], k, mss, Wrap(isn + a));
    MessageShape(msgs[k], k, mss, Wrap(isn + a), i);
    StreamIs(msgs, mss, isn, k);
    assert ps[i] == StreamOf(msgs, mss, isn)[u];
    IncSeqWraps(isn + a, i);
    assert isn + a + i == isn + u;
  }

  lemma StreamInSequence(msgs: seq<Message>, mss: nat, isn: nat)
    requires mss > 0 && Submittable(msgs)
    ensures InSequence(StreamOf(msgs, mss, isn), isn)
  {
    var st := StreamOf(msgs, mss, isn);
    StreamLength(msgs, mss, isn);
    forall u | 0 <= u < |st| ensures st[u].seqno == Wrap(isn + u) {
      PacketShape(msgs, mss, isn, MessageOf(msgs, mss, |msgs|, u), u);
    }
  }

  /** The message after that of packet `i`, when that is its last one, begins with the next packet. */
  lemma {:induction false} NextMessage(msgs: seq<Message>, mss: nat, k: nat, i: nat)
    requires mss > 0 && Submittable(msgs) && k < |msgs|
    requires i + 1 == StartOf(msgs, mss, k + 1) < StartOf(msgs, mss, |msgs|)
    ensures k + 1 < |msgs| && StartOf(msgs, mss, k + 1) == i + 1 < StartOf(msgs, mss, k + 2)
  {
    MessageCount(msgs[k + 1], k + 1, mss, 0);
  }

  /** Two packets in a row belong to one message or to two in a row. */
  lemma {:induction false} NeighboursFit(msgs: seq<Message>, mss: nat, isn: nat, i: nat)
    requires mss > 0 && Submittable(msgs) && i + 1 < |StreamOf(msgs, mss, isn)|
    ensures var st := StreamOf(msgs, mss, isn);
            && (st[i].isLast <==> st[i + 1].isFirst)
            && (!st[i].isLast ==> st[i].msgno == st[i + 1].msgno && st[i].inOrder == st[i + 1].inOrder)
  {
    StreamLength(msgs, mss, isn);
    var k := MessageOf(msgs, mss, |msgs|, i);
    PacketShape(msgs, mss, isn, k, i);
    if i + 1 < StartOf(msgs, mss, k + 1) {
      PacketShape(msgs, mss, isn, k, i + 1);
    } else {
      NextMessage(msgs, mss, k, i);
      PacketShape(msgs, mss, isn, k + 1, i + 1);
    }
  }

  lemma StreamWellFormed(msgs: seq<Message>, mss: nat, isn: nat)
    requires mss > 0 && Submittable(msgs)
    ensures WellFormed(StreamOf(msgs, mss, isn))
  {
    var st := StreamOf(msgs, mss, isn);
    forall i | 0 <= i && i + 1 < |st|
      ensures st[i].isLast <==> st[i + 1].isFirst
      ensures !st[i].isLast ==> st[i].msgno == st[i + 1].msgno && st[i].inOrder == st[i + 1].inOrder
    {
      NeighboursFit(msgs, mss, isn, i);
    }
  }

  /** The read delivered message `k`, as far as it fitted, and nothing else. */
  ghost predicate IsMessage(msgs: seq<Message>, mss: nat, k: nat, d: Delivery)
    requires mss > 0
  {
    && k < |msgs|
    && d.lo == StartOf(msgs, mss, k) && d.hi == StartOf(msgs, mss, k + 1)
    && d.data == msgs[k].data[..Min(d.room, |msgs[k].data|)]
  }

  lemma MessagePayload(msgs: seq<Message>, mss: nat, isn: nat, k: nat)
    requires mss > 0 && Submittable(msgs) && k < |msgs|
    ensures var st := StreamOf(msgs, mss, isn);
            var a, b := StartOf(msgs, mss, k), StartOf(msgs, mss, k + 1);
            a <= b <= |st| && Payloads(st[a..b]) == msgs[k].data
  {
    var a, b := StartOf(msgs, mss, k), StartOf(msgs, mss, k + 1);
    var seqno := Wrap(isn + a);
    StreamIs(msgs, mss, isn, k);
    assert StreamOf(msgs, mss, isn)[a..b] == MessagePackets(msgs[k], k, mss, seqno);
    FragmentsRejoin(msgs[k].data, mss, true, seqno, NumberAt(k), Control(None, seqno, msgs[k].inOrder, -1, 0), 0);
  }

  /** A stretch from a first packet to the next last one is one message. */
  lemma WholeIsMessage(msgs: seq<Message>, mss: nat, isn: nat, lo: nat, hi: nat) returns (k: nat)
    requires mss > 0 && Submittable(msgs) && Whole(StreamOf(msgs, mss, isn), lo, hi)
    ensures k < |msgs| && lo == StartOf(msgs, mss, k) && hi == StartOf(msgs, mss, k + 1)
  {
    StreamLength(msgs, mss, isn);
    k := MessageOf(msgs, mss, |msgs|, lo);
    PacketShape(msgs, mss, isn, k, lo);
    var last := StartOf(msgs, mss, k + 1) - 1;
    PacketShape(msgs, mss, isn, k, last);
    if hi - 1 < last {
      PacketShape(msgs, mss, isn, k, hi - 1);
    }
  }

  lemma DeliveryIsMessage(msgs: seq<Message>, mss: nat, isn: nat, d: Delivery) returns (k: nat)
    requires mss > 0 && Submittable(msgs) && DeliversMessage(StreamOf(msgs, mss, isn), d)
    ensures IsMessage(msgs, mss, k, d) && StreamOf(msgs, mss, isn)[d.lo].inOrder == msgs[k].inOrder
  {
    k := WholeIsMessage(msgs, mss, isn, d.lo, d.hi);
    MessagePayload(msgs, mss, isn, k);
    PacketShape(msgs, mss, isn, k, d.lo);
  }

  lemma {:induction false} StartsGrow(msgs: seq<Message>, mss: nat, k: nat, l: nat)
    requires mss > 0 && k <= l <= |msgs|
    ensures StartOf(msgs, mss, k) <= StartOf(msgs, mss, l)
    decreases l - k
  {
    if k < l {
      StartsGrow(msgs, mss, k, l - 1);
    }
  }

  /** The read delivered some message. */
  ghost predicate IsSubmitted(msgs: seq<Message>, mss: nat, d: Delivery)
    requires mss > 0
  {
    exists k: nat :: IsMessage(msgs, mss, k, d)
  }

  /** Of two reads, the second delivered another message, and a later one if the first was to be in order. */
  ghost predicate InOrder(msgs: seq<Message>, mss: nat, a: Delivery, b: Delivery)
    requires mss > 0
  {
    forall k: nat, l: nat :: IsMessage(msgs, mss, k, a) && IsMessage(msgs, mss, l, b) ==>
      k != l && (msgs[k].inOrder ==> k < l)
  }

  /** End to end: of any submitted messages, cut into packets that arrive in any order and any number of times, each
      read delivers exactly one, byte for byte as far as it fits; no message is delivered twice; and a message that
      was flagged to be in order is delivered before all later ones that are delivered. */
  lemma ReadsAreSubmittedMessages(m: Mode, msgs: seq<Message>, mss: nat, isn: nat, es: seq<Event>, s': Sys)
    requires mss > 0 && Submittable(msgs) && m.OutOfOrder() && 1 <= m.size <= SEQ_NO_TH
    requires Leads(m, StreamOf(msgs, mss, isn), isn, InitSys(isn), es, s')
    ensures forall i :: 0 <= i < |s'.log| ==> IsSubmitted(msgs, mss, s'.log[i])
    ensures forall i, j :: 0 <= i < j < |s'.log| ==> InOrder(msgs, mss, s'.log[i], s'.log[j])
  {
    var st := StreamOf(msgs, mss, isn);
    StreamInSequence(msgs, mss, isn);
    StreamWellFormed(msgs, mss, isn);
    AtMostOnce(m, st, isn, es, s');
    MessagesArriveWhole(m, st, isn, es, s');
    forall i | 0 <= i < |s'.log| ensures IsSubmitted(msgs, mss, s'.log[i]) {
      var k := DeliveryIsMessage(msgs, mss, isn, s'.log[i]);
    }
    forall i, j | 0 <= i < j < |s'.log| ensures InOrder(msgs, mss, s'.log[i], s'.log[j]) {
      forall k: nat, l: nat | IsMessage(msgs, mss, k, s'.log[i]) && IsMessage(msgs, mss, l, s'.log[j])
        ensures k != l && (msgs[k].inOrder ==> k < l)
      {
        LogOrder(msgs, mss, isn, s', i, j, k, l);
      }
    }
  }

  lemma LogOrder(msgs: seq<Message>, mss: nat, isn: nat, s: Sys, i: nat, j: nat, k: nat, l: nat)
    requires mss > 0 && Submittable(msgs) && LogGood(StreamOf(msgs, mss, isn), s)
    requires i < j < |s.log| && Disjoint(s.log[i], s.log[j])
    requires IsMessage(msgs, mss, k, s.log[i]) && IsMessage(msgs, mss, l, s.log[j])
    ensures k != l && (msgs[k].inOrder ==> k < l)
  {
    MessageCount(msgs[k], k, mss, 0);
    PacketShape(msgs, mss, isn, k, s.log[i].lo);
    if l < k {
      StartsGrow(msgs, mss, l, k);
    }
  }
}
