/** A run after which a complete message stays in the buffer and cannot be read. */
module RcvStuck {
  import opened SeqNo
  import opened Packets
  import opened RcvWindow
  import opened RcvWindowInvariant
  import opened RcvMessages
  import opened RcvIndex
  import opened RcvRun
  import opened RcvDelivery
  import opened RcvFrontier
  import opened RcvProgress

  const MODE := Mode(8, false, true)

  /** Messages of one packet each; the second may be read out of order. */
  function Solo(n: Seq): Packet {
    Packet(n, n, true, true, n != 1, [7])
  }

  const THREE := [Solo(0), Solo(1), Solo(2)]

  function Held(n: Seq): Entry {
    Entry(Some(Unit(n, Solo(n))), Avail)
  }

  /** The second packet arrives and is read, then the others arrive, and the first is read. */
  const EVENTS := [Arrive(1, 1), ReadMsg(9), Arrive(0, 0), Arrive(2, 2), ReadMsg(9)]

  const FIRST_READ := Delivery(1, 2, 9, [7])
  const SECOND_READ := Delivery(0, 1, 9, [7])

  const S1 := Sys(State([EMPTY_ENTRY, Held(1)], 0, 0, 1, 1, 1, 0), 0, [], {})
  const S2 := Sys(State([EMPTY_ENTRY, READ_ENTRY], 0, 0, -1, 0, 0, 0), 0, [FIRST_READ], {})
  const S3 := Sys(State([Held(0), READ_ENTRY], 0, 1, -1, 1, 1, 0), 0, [FIRST_READ], {})
  const S4 := Sys(State([Held(0), READ_ENTRY, Held(2)], 0, 1, -1, 2, 2, 0), 0, [FIRST_READ], {})
  const S5 := Sys(State([Held(2)], 2, 0, -1, 1, 1, 0), 2, [FIRST_READ, SECOND_READ], {})

  lemma WrapSmall(n: nat)
    requires n <= MAX_SEQ_NO
    ensures Wrap(n) == n
  {
  }

  lemma Step1()
    ensures Inv(MODE, InitSys(0).rcv) && Next(MODE, THREE, 0, InitSys(0), EVENTS[0]) == S1
  {
    WrapSmall(0);
    assert Grow([], 2)[1 := Held(1)] == [EMPTY_ENTRY, Held(1)];
    assert SeqOff(0, 1) == 1;
    assert !MessageAt(true, S1.rcv.w, 0);
  }

  lemma SoloPayload(n: Seq)
    ensures Payloads([Solo(n)]) == [7] && UnitPackets([Held(n)]) == [Solo(n)]
  {
    assert [Solo(n)][1..] == [];
  }

  lemma Step2()
    ensures Inv(MODE, S1.rcv) && Next(MODE, THREE, 0, S1, EVENTS[1]) == S2
  {
    var w, w2 := S1.rcv.w, S2.rcv.w;
    assert SpanEnd(true, w, 1) == 2 && SpanComplete(true, w, 1);
    assert w[..1] + Reads(1) + w[2..] == w2;
    assert w2[0..] == w2 && w[1..2] == [Held(1)];
    SoloPayload(1);
    assert SearchOoo(w2, 1, -1, -1) == -1;
    assert TakeAndCount(MODE, S1.rcv, 1) == S2.rcv;
    assert ReadAt(MODE, S1.rcv, 1) == S2.rcv;
  }

  lemma Step3()
    ensures Inv(MODE, S2.rcv) && Next(MODE, THREE, 0, S2, EVENTS[2]) == S3
  {
    assert Grow(S2.rcv.w, 1)[0 := Held(0)] == S3.rcv.w;
    assert SpanEnd(true, S3.rcv.w, 0) == 1 && SpanComplete(true, S3.rcv.w, 0);
    assert Frontier(true, S3.rcv.w, 1) == 1;
  }

  lemma Step4()
    ensures Inv(MODE, S3.rcv) && Next(MODE, THREE, 0, S3, EVENTS[3]) == S4
  {
    var w := S4.rcv.w;
    assert Grow(S3.rcv.w, 3)[2 := Held(2)] == w;
    assert SpanEnd(true, S3.rcv.w, 0) == 1 && SpanComplete(true, S3.rcv.w, 0);
    assert !MessageAt(true, w, 1);
    assert SeqOff(0, 2) == 2;
  }

  lemma Step5()
    ensures Inv(MODE, S4.rcv) && Next(MODE, THREE, 0, S4, EVENTS[4]) == S5
  {
    var w, w5 := S4.rcv.w, S5.rcv.w;
    assert SpanEnd(true, w, 0) == 1 && SpanComplete(true, w, 0);
    assert w[0..1] == [Held(0)] && w[1..] == [READ_ENTRY, Held(2)] && w[1..][1..] == w5;
    SoloPayload(0);
    assert LeadingFillers(w5) == 0;
    assert LeadingFillers(w[1..]) == 1;
    SearchOooNone(w5, 0, -1, -1);
    assert TakeAndCount(MODE, S4.rcv, 0) == State(w[1..], 1, 1, -1, 1, 1, 0);
    assert ReadAt(MODE, S4.rcv, 0) == S5.rcv;
  }

  lemma StreamIsThree()
    ensures InSequence(THREE, 0) && WellFormed(THREE) && Finished(THREE)
  {
    WrapSmall(0);
    WrapSmall(1);
    WrapSmall(2);
  }

  lemma StuckState()
    ensures MessageAt(true, S5.rcv.w, 0) && !WasRead(S5, 2) && S5.dropped == {}
    ensures NothingToRead(MODE, S5.rcv) && !FrontierIsScan(MODE, S5.rcv)
  {
    assert SpanEnd(true, S5.rcv.w, 0) == 1 && SpanComplete(true, S5.rcv.w, 0);
    assert Frontier(true, S5.rcv.w, 1) == 1;
  }

  lemma Tails()
    ensures EVENTS[1..][0] == EVENTS[1] && EVENTS[1..][1..] == EVENTS[2..] && EVENTS[2..][0] == EVENTS[2]
    ensures EVENTS[2..][1..] == EVENTS[3..] && EVENTS[3..][0] == EVENTS[3]
    ensures EVENTS[3..][1..] == EVENTS[4..] && EVENTS[4..][1..] == []
  {
  }

  lemma AllAreTaken()
    ensures AllTaken(MODE, THREE, 0, EVENTS)
  {
    Step1();
    Step2();
    Step3();
    Step4();
    Tails();
    assert Takes(MODE, THREE, 0, S3, EVENTS[3..], 2);
    assert Takes(MODE, THREE, 0, S2, EVENTS[2..], 2) && Takes(MODE, THREE, 0, S2, EVENTS[2..], 0);
    assert Takes(MODE, THREE, 0, S1, EVENTS[1..], 2) && Takes(MODE, THREE, 0, S1, EVENTS[1..], 0);
    forall u: nat | u < |THREE| ensures Takes(MODE, THREE, 0, InitSys(0), EVENTS, u) {
      assert u == 0 || u == 1 || u == 2;
    }
  }

  lemma RunLeads()
    ensures Leads(MODE, THREE, 0, InitSys(0), EVENTS, S5)
  {
    Step1();
    Step2();
    Step3();
    Step4();
    Step5();
    Tails();
    assert Leads(MODE, THREE, 0, S5, [], S5);
    assert Leads(MODE, THREE, 0, S4, EVENTS[4..], S5);
    assert Leads(MODE, THREE, 0, S3, EVENTS[3..], S5);
    assert Leads(MODE, THREE, 0, S2, EVENTS[2..], S5);
    assert Leads(MODE, THREE, 0, S1, EVENTS[1..], S5);
  }

  /** All packets arrived inside the capacity and none was given up; the last message is complete at the start of the
      buffer, and readMessage gives nothing. */
  lemma MessageIsStuck()
    ensures InSequence(THREE, 0) && WellFormed(THREE) && Finished(THREE)
    ensures Leads(MODE, THREE, 0, InitSys(0), EVENTS, S5) && AllTaken(MODE, THREE, 0, EVENTS) && S5.dropped == {}
    ensures MessageAt(true, S5.rcv.w, 0) && !WasRead(S5, 2)
    ensures NothingToRead(MODE, S5.rcv) && !FrontierIsScan(MODE, S5.rcv)
  {
    StreamIsThree();
    RunLeads();
    AllAreTaken();
    StuckState();
  }
}
