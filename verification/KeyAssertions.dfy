/** Which rates keep the assertions of the key rotation: all that announce a key at least one packet ahead. */
module KeyAssertions {
  import opened Packets
  import opened KeyWrap
  import opened KmMessage
  import opened KeyRotation
  import opened KeyWire

  /** For each packet: whether the announcing period is over, and what the random generator would give. No assertion
      fails on the way. */
  ghost predicate TxLeads(tx: Tx, r: Rates, ins: Inputs, tx': Tx)
    decreases |ins|
  {
    if ins == [] then tx == tx'
    else
      && r.preAnnounce <= r.refresh && TurnAllowed(tx, r, ins[0].1)
      && TxLeads(Process(tx, r, ins[0].0, ins[0].1).0, r, ins[1..], tx')
  }

  /** The other context waits, was replaced, or has the next key, and it has the next key in time. */
  ghost predicate InTime(tx: Tx, r: Rates, len: nat)
    requires r.preAnnounce <= r.refresh
  {
    var c, a := tx.Cur(), tx.Alt();
    && Permutation(tx.kek)
    && c.status == ACTIVE && Keys(c.salt, c.sek) && |c.sek| == len
    && 1 <= c.pktCnt <= r.refresh + 1
    && (a.status == SARDY || a.status == KEYED || a.status == DEPRECATED)
    && (a.announce <==> a.status == KEYED)
    && (a.status == KEYED ==> a.pktCnt == 0 && Keys(a.salt, a.sek) && |a.sek| == len && !c.announce)
    && (c.pktCnt > r.refresh - r.preAnnounce + 1 ==> a.status == KEYED)
  }

  /** The same before the packet is counted, when a key may just have taken over. */
  ghost predicate InTimeBefore(tx: Tx, r: Rates, len: nat)
    requires r.preAnnounce <= r.refresh
  {
    tx.Cur().pktCnt <= r.refresh && InTime(tx.WithCur(tx.Cur().(pktCnt := tx.Cur().pktCnt + 1)), r, len)
  }

  lemma TurnInTime(tx: Tx, r: Rates, len: nat, sek: Bytes)
    requires 1 <= r.preAnnounce <= r.refresh && InTime(tx, r, len) && |sek| == len
    ensures TurnAllowed(tx, r, sek) && InTimeBefore(Turned(tx, r, sek), r, len)
  {
    match TurnOf(tx, r)
    case DoSwitch => SwitchIs(tx);
    case DoRefresh => RefreshIs(tx, sek);
    case _ =>
  }

  lemma TickInTime(tx: Tx, r: Rates, len: nat, tick: bool)
    requires r.preAnnounce <= r.refresh && InTimeBefore(tx, r, len)
    ensures InTimeBefore(Ticked(tx, tick), r, len)
  {
  }

  lemma SendInTime(tx: Tx, r: Rates, len: nat)
    requires r.preAnnounce <= r.refresh < 0xFFFF_FFFF && InTimeBefore(tx, r, len)
    ensures InTime(SentTx(tx), r, len)
  {
    SentTxIs(tx);
  }

  lemma ProcessInTime(tx: Tx, r: Rates, len: nat, tick: bool, sek: Bytes)
    requires 1 <= r.preAnnounce <= r.refresh < 0xFFFF_FFFF && InTime(tx, r, len) && |sek| == len
    ensures TurnAllowed(tx, r, sek) && InTime(Process(tx, r, tick, sek).0, r, len)
  {
    TurnInTime(tx, r, len, sek);
    TickInTime(Turned(tx, r, sek), r, len, tick);
    SendInTime(ManageKM(tx, r, tick, sek), r, len);
  }

  lemma {:induction false} RunInTime(tx: Tx, r: Rates, len: nat, ins: Inputs, tx': Tx)
    requires 1 <= r.preAnnounce <= r.refresh < 0xFFFF_FFFF && InTime(tx, r, len) && TxLeads(tx, r, ins, tx')
    ensures InTime(tx', r, len)
    decreases |ins|
  {
    if ins != [] {
      ProcessInTime(tx, r, len, ins[0].0, ins[0].1);
      RunInTime(Process(tx, r, ins[0].0, ins[0].1).0, r, len, ins[1..], tx');
    }
  }

  lemma CreateInTime(kek: Cipher, r: Rates, salt: Bytes, sek: Bytes)
    requires Permutation(kek) && Keys(salt, sek) && 1 <= r.preAnnounce <= r.refresh
    ensures InTime(Create(kek, salt, sek), r, |sek|)
  {
  }

  /** ManageKM must not be called twice before a packet: after a switch it would switch back, to a deprecated key. */
  lemma ManagingTwiceSwitchesBack(tx: Tx, r: Rates, len: nat, sek: Bytes)
    requires 1 <= r.preAnnounce <= r.refresh && InTime(tx, r, len) && |sek| == len && TurnOf(tx, r) == DoSwitch
    ensures TurnAllowed(tx, r, sek)
    ensures var once := Turned(tx, r, sek);
            && TurnAllowed(once, r, sek) && TurnOf(once, r) == DoSwitch
            && Turned(once, r, sek).cur == tx.cur && Turned(once, r, sek).Cur().sek == tx.Cur().sek
  {
    SwitchIs(tx);
    SwitchIs(Switch(tx));
  }

  // ----- no announcement ahead

  /** Nothing happened but packets. */
  ghost predicate Idle(tx: Tx, r: Rates) {
    && tx.Cur().status == ACTIVE && Keys(tx.Cur().salt, tx.Cur().sek)
    && tx.Alt().status == SARDY && 1 <= tx.Cur().pktCnt <= r.refresh + 1
  }

  lemma IdleStep(tx: Tx, r: Rates)
    requires Idle(tx, r) && r.preAnnounce == 0 && tx.Cur().pktCnt <= r.refresh < 0xFFFF_FFFF
    ensures var sek := tx.Cur().sek;
            && TurnAllowed(tx, r, sek)
            && var tx' := Process(tx, r, false, sek).0;
               Idle(tx', r) && tx'.Cur().pktCnt == tx.Cur().pktCnt + 1 && tx'.Cur().sek == sek
  {
    SentTxIs(tx);
  }

  lemma {:induction false} IdleRun(tx: Tx, r: Rates, ins: Inputs) returns (tx': Tx)
    requires Idle(tx, r) && r.preAnnounce == 0 && r.refresh < 0xFFFF_FFFF
    requires tx.Cur().pktCnt + |ins| == r.refresh + 1
    requires forall i :: 0 <= i < |ins| ==> ins[i] == (false, tx.Cur().sek)
    ensures TxLeads(tx, r, ins, tx') && Idle(tx', r) && tx'.Cur().pktCnt == r.refresh + 1
    decreases |ins|
  {
    if ins == [] {
      tx' := tx;
    } else {
      IdleStep(tx, r);
      tx' := IdleRun(Process(tx, r, ins[0].0, ins[0].1).0, r, ins[1..]);
    }
  }

  /** After as many packets as the refresh rate the next one switches to a key that was never made. */
  lemma NoAnnouncementFails(kek: Cipher, r: Rates, salt: Bytes, sek: Bytes) returns (ins: Inputs, tx: Tx)
    requires Keys(salt, sek) && r.preAnnounce == 0 && r.refresh < 0xFFFF_FFFF
    ensures TxLeads(Create(kek, salt, sek), r, ins, tx) && |ins| == r.refresh
    ensures forall next :: !TurnAllowed(tx, r, next)
  {
    ins := seq(r.refresh, i => (false, sek));
    tx := IdleRun(Create(kek, salt, sek), r, ins);
  }

  /** No run can make an assertion fail. */
  ghost predicate AlwaysAllowed(kek: Cipher, r: Rates, salt: Bytes, sek: Bytes)
    requires Keys(salt, sek) && r.preAnnounce <= r.refresh
  {
    forall ins, tx, next: Bytes ::
      TxLeads(Create(kek, salt, sek), r, ins, tx) && |next| == |sek| ==> TurnAllowed(tx, r, next)
  }

  /** The assertions hold in every run if and only if each key is announced at least one packet ahead. */
  lemma AssertionsHoldIff(kek: Cipher, r: Rates, salt: Bytes, sek: Bytes)
    requires Permutation(kek) && Keys(salt, sek) && r.preAnnounce <= r.refresh < 0xFFFF_FFFF
    ensures AlwaysAllowed(kek, r, salt, sek) <==> r.preAnnounce >= 1
  {
    if r.preAnnounce >= 1 {
      forall ins, tx, next: Bytes | TxLeads(Create(kek, salt, sek), r, ins, tx) && |next| == |sek|
        ensures TurnAllowed(tx, r, next)
      {
        CreateInTime(kek, r, salt, sek);
        RunInTime(Create(kek, salt, sek), r, |sek|, ins, tx);
        TurnInTime(tx, r, |sek|, next);
      }
    } else {
      var ins, tx := NoAnnouncementFails(kek, r, salt, sek);
      assert TxLeads(Create(kek, salt, sek), r, ins, tx) && !TurnAllowed(tx, r, sek);
    }
  }
}
