/** A whole transfer: a run of the sender, a channel that loses, repeats and reorders packets, and a run of the receiver
    over what comes through. */
module Transfer {
  import opened SeqNo
  import opened Packets
  import opened RcvWindow
  import opened RcvWindowInvariant
  import opened RcvRun
  import opened RcvDelivery
  import opened RcvProgress
  import opened EndToEnd
  import Snd = SndRun

  /** Only what was sent arrives. */
  ghost predicate FromWire(es: seq<Event>, emitted: set<(nat, Packet)>) {
    forall i :: 0 <= i < |es| && es[i].Arrive? ==> exists p :: (es[i].u, p) in emitted
  }

  /** The packet stored for a number is one that was sent under it. */
  ghost predicate ArrivesAsSent(st: Stream, es: seq<Event>, emitted: set<(nat, Packet)>) {
    forall i :: 0 <= i < |es| && es[i].Arrive? ==> es[i].u < |st| && (es[i].u, st[es[i].u]) in emitted
  }

  ghost predicate IsRead(msgs: seq<Message>, mss: nat, k: nat, log: seq<Delivery>)
    requires mss > 0
  {
    exists i :: 0 <= i < |log| && IsMessage(msgs, mss, k, log[i])
  }

  lemma {:induction false} StreamFinished(msgs: seq<Message>, mss: nat, isn: nat)
    requires mss > 0 && Submittable(msgs)
    ensures Finished(StreamOf(msgs, mss, isn))
  {
    var st, n := StreamOf(msgs, mss, isn), |msgs|;
    StreamLength(msgs, mss, isn);
    if st != [] {
      var k := MessageOf(msgs, mss, n, |st| - 1);
      PacketShape(msgs, mss, isn, k, |st| - 1);
      StartsGrow(msgs, mss, k + 1, n);
      var k0 := MessageOf(msgs, mss, n, 0);
      PacketShape(msgs, mss, isn, k0, 0);
    }
  }

  lemma {:induction false} StartInside(msgs: seq<Message>, mss: nat, isn: nat, k: nat)
    requires mss > 0 && Submittable(msgs) && k < |msgs|
    ensures StartOf(msgs, mss, k) < StartOf(msgs, mss, k + 1) <= |StreamOf(msgs, mss, isn)|
  {
    MessageCount(msgs[k], k, mss, 0);
    StreamLength(msgs, mss, isn);
    StartsGrow(msgs, mss, k + 1, |msgs|);
  }

  /** Messages do not overlap. */
  lemma {:induction false} StartNames(msgs: seq<Message>, mss: nat, isn: nat, k: nat, l: nat)
    requires mss > 0 && Submittable(msgs) && k < |msgs| && l < |msgs|
    requires StartOf(msgs, mss, l) <= StartOf(msgs, mss, k) < StartOf(msgs, mss, l + 1)
    ensures k == l
  {
    if l < k {
      StartsGrow(msgs, mss, l + 1, k);
    } else if k < l {
      StartInside(msgs, mss, isn, k);
      StartsGrow(msgs, mss, k + 1, l);
    }
  }

  /** A message of which the first packet was read was read. */
  lemma {:induction false} ReadByStart(msgs: seq<Message>, mss: nat, isn: nat, s: Sys, k: nat)
    requires mss > 0 && Submittable(msgs) && k < |msgs| && LogGood(StreamOf(msgs, mss, isn), s)
    requires WasRead(s, StartOf(msgs, mss, k))
    ensures IsRead(msgs, mss, k, s.log)
  {
    var u := StartOf(msgs, mss, k);
    var i :| 0 <= i < |s.log| && s.log[i].lo <= u < s.log[i].hi;
    var l := ReadAtIndex(msgs, mss, isn, s, i);
    StartNames(msgs, mss, isn, k, l);
  }

  lemma {:induction false} ReadAtIndex(msgs: seq<Message>, mss: nat, isn: nat, s: Sys, i: nat) returns (l: nat)
    requires mss > 0 && Submittable(msgs) && LogGood(StreamOf(msgs, mss, isn), s) && i < |s.log|
    ensures IsMessage(msgs, mss, l, s.log[i])
  {
    l := DeliveryIsMessage(msgs, mss, isn, s.log[i]);
  }

  /** The same over whole runs. */
  lemma {:induction false} ReadInTheLog(m: Mode, msgs: seq<Message>, mss: nat, isn: nat, es: seq<Event>, s: Sys, k: nat)
    requires mss > 0 && Submittable(msgs) && k < |msgs| && m.OutOfOrder() && 1 <= m.size <= SEQ_NO_TH
    requires Leads(m, StreamOf(msgs, mss, isn), isn, InitSys(isn), es, s) && WasRead(s, StartOf(msgs, mss, k))
    ensures IsRead(msgs, mss, k, s.log)
  {
    StreamInSequence(msgs, mss, isn);
    StreamWellFormed(msgs, mss, isn);
    MessagesArriveWhole(m, StreamOf(msgs, mss, isn), isn, es, s);
    ReadByStart(msgs, mss, isn, s, k);
  }

  lemma {:induction false} FlagOfStart(msgs: seq<Message>, mss: nat, isn: nat, k: nat)
    requires mss > 0 && Submittable(msgs) && k < |msgs|
    ensures var st, u := StreamOf(msgs, mss, isn), StartOf(msgs, mss, k); u < |st| && st[u].inOrder == msgs[k].inOrder
  {
    StartInside(msgs, mss, isn, k);
    PacketShape(msgs, mss, isn, k, StartOf(msgs, mss, k));
  }

  /** What the sender's run makes sure of. */
  lemma SenderSends(size: nat, mss: nat, isn: nat, ss: seq<Snd.Step>, snd: Snd.Sender)
    requires size >= 1 && mss >= 1 && Snd.Leads(Snd.InitSender(size, isn), mss, size, ss, snd)
    ensures Submittable(snd.msgs)
    ensures forall x :: x in snd.emitted ==>
            x.0 < |StreamOf(snd.msgs, mss, isn)| && x.1 == StreamOf(snd.msgs, mss, isn)[x.0]
  {
    Snd.InitSenderKeeps(size, mss, isn);
    Snd.RunKeeps(Snd.InitSender(size, isn), mss, size, isn, ss, snd);
  }

  /** Safety of the transfer: every read delivers one submitted message, byte for byte as far as it fits, none is
      delivered twice, and one flagged to be in order comes before all later ones. What arrives under a number is what
      was sent. */
  lemma ReadsWhatWasSubmitted(size: nat, mss: nat, isn: nat, ss: seq<Snd.Step>, snd: Snd.Sender,
                              m: Mode, es: seq<Event>, rcv: Sys)
    requires size >= 1 && mss >= 1 && Snd.Leads(Snd.InitSender(size, isn), mss, size, ss, snd)
    requires m.OutOfOrder() && 1 <= m.size <= SEQ_NO_TH && FromWire(es, snd.emitted)
    requires Leads(m, StreamOf(snd.msgs, mss, isn), isn, InitSys(isn), es, rcv)
    ensures forall i :: 0 <= i < |rcv.log| ==> IsSubmitted(snd.msgs, mss, rcv.log[i])
    ensures forall i, j :: 0 <= i < j < |rcv.log| ==> InOrder(snd.msgs, mss, rcv.log[i], rcv.log[j])
    ensures ArrivesAsSent(StreamOf(snd.msgs, mss, isn), es, snd.emitted)
  {
    SenderSends(size, mss, isn, ss, snd);
    ReadsAreSubmittedMessages(m, snd.msgs, mss, isn, es, rcv);
  }

  /** In the end, when every packet has arrived inside the capacity, none was dropped and readMessage gives nothing
      more: every message that may be read out of order was read, and all were read if the frontier is where a full
      scan would put it. */
  lemma {:induction false} SubmittedIsRead(size: nat, mss: nat, isn: nat, ss: seq<Snd.Step>, snd: Snd.Sender,
                                           m: Mode, es: seq<Event>, rcv: Sys, k: nat)
    requires size >= 1 && mss >= 1 && Snd.Leads(Snd.InitSender(size, isn), mss, size, ss, snd)
    requires m.OutOfOrder() && 1 <= m.size <= SEQ_NO_TH && FromWire(es, snd.emitted)
    requires Leads(m, StreamOf(snd.msgs, mss, isn), isn, InitSys(isn), es, rcv) && rcv.dropped == {}
    requires AllTaken(m, StreamOf(snd.msgs, mss, isn), isn, es) && NothingToRead(m, rcv.rcv)
    requires k < |snd.msgs| && (!snd.msgs[k].inOrder || FrontierIsScan(m, rcv.rcv))
    ensures IsRead(snd.msgs, mss, k, rcv.log)
  {
    var st := StreamOf(snd.msgs, mss, isn);
    SenderSends(size, mss, isn, ss, snd);
    StreamInSequence(snd.msgs, mss, isn);
    StreamWellFormed(snd.msgs, mss, isn);
    StreamFinished(snd.msgs, mss, isn);
    ReadInTheEnd(m, st, isn, es, rcv);
    FlagOfStart(snd.msgs, mss, isn, k);
    ReadInTheLog(m, snd.msgs, mss, isn, es, rcv, k);
  }

  lemma {:induction false} AllOrdered(msgs: seq<Message>, mss: nat, isn: nat, u: nat)
    requires mss > 0 && Submittable(msgs) && u < |StreamOf(msgs, mss, isn)|
    requires forall k :: 0 <= k < |msgs| ==> msgs[k].inOrder
    ensures StreamOf(msgs, mss, isn)[u].inOrder
  {
    StreamLength(msgs, mss, isn);
    PacketShape(msgs, mss, isn, MessageOf(msgs, mss, |msgs|, u), u);
  }

  lemma {:induction false} OrderedStream(msgs: seq<Message>, mss: nat, isn: nat)
    requires mss > 0 && Submittable(msgs)
    requires forall k :: 0 <= k < |msgs| ==> msgs[k].inOrder
    ensures forall u :: 0 <= u < |StreamOf(msgs, mss, isn)| ==> StreamOf(msgs, mss, isn)[u].inOrder
  {
    forall u | 0 <= u < |StreamOf(msgs, mss, isn)| ensures StreamOf(msgs, mss, isn)[u].inOrder {
      AllOrdered(msgs, mss, isn, u);
    }
  }

  /** If all messages are to be read in order, all are read in the end, in the order they were submitted. */
  lemma {:induction false} OrderedIsRead(size: nat, mss: nat, isn: nat, ss: seq<Snd.Step>, snd: Snd.Sender,
                                         m: Mode, es: seq<Event>, rcv: Sys, k: nat)
    requires size >= 1 && mss >= 1 && Snd.Leads(Snd.InitSender(size, isn), mss, size, ss, snd)
    requires m.OutOfOrder() && 1 <= m.size <= SEQ_NO_TH && FromWire(es, snd.emitted) && OnlyReads(es)
    requires Leads(m, StreamOf(snd.msgs, mss, isn), isn, InitSys(isn), es, rcv)
    requires AllTaken(m, StreamOf(snd.msgs, mss, isn), isn, es) && NothingToRead(m, rcv.rcv)
    requires forall i :: 0 <= i < |snd.msgs| ==> snd.msgs[i].inOrder
    requires k < |snd.msgs|
    ensures IsRead(snd.msgs, mss, k, rcv.log)
  {
    var st := StreamOf(snd.msgs, mss, isn);
    SenderSends(size, mss, isn, ss, snd);
    StreamInSequence(snd.msgs, mss, isn);
    StreamWellFormed(snd.msgs, mss, isn);
    StreamFinished(snd.msgs, mss, isn);
    OrderedStream(snd.msgs, mss, isn);
    OrderedAllRead(m, st, isn, es, rcv);
    FlagOfStart(snd.msgs, mss, isn, k);
    ReadInTheLog(m, snd.msgs, mss, isn, es, rcv, k);
  }
}
