/** What a rotating sender puts on the wire: how many packets each key encrypts, how long before its first packet each
    key is announced, and in which order. */
module KeyWire {
  import opened Packets
  import opened KeyWrap
  import opened KmMessage
  import opened KeyRotation

  type Wire = seq<Item>

  /** The message holds key `k`. */
  predicate Introduces(it: Item, k: nat) {
    it.Km? && (it.gen == k || (it.both && it.gen == k + 1))
  }

  ghost predicate Introduced(w: Wire, k: nat) {
    exists i :: 0 <= i < |w| && Introduces(w[i], k)
  }

  /** How far the rotation has come with a message: key after key, first with its predecessor, then alone. */
  function Rank(it: Item): int
    requires it.Km?
  {
    2 * it.gen - if it.both then 1 else 0
  }

  /** Every item is what its number says. */
  ghost predicate ItemOk(it: Item, kek: Cipher, salt: Bytes, seks: seq<Bytes>)
    requires GoodKeys(salt, seks)
  {
    && it.gen < |seks|
    && match it
       case Km(g, both, bytes) => (both ==> g >= 1) && bytes == KmBytes(kek, salt, seks, g, both)
       case Sent(g, media) => media == Media(IsOdd(g), salt, seks[g])
  }

  ghost predicate ItemsOk(w: Wire, kek: Cipher, salt: Bytes, seks: seq<Bytes>)
    requires GoodKeys(salt, seks)
  {
    forall i :: 0 <= i < |w| ==> ItemOk(w[i], kek, salt, seks)
  }

  /** Messages go out in the order of the rotation, none beyond `top`. */
  ghost predicate OrderOk(w: Wire, top: int) {
    && (forall i, j :: 0 <= i < j < |w| && w[i].Km? && w[j].Km? ==> Rank(w[i]) <= Rank(w[j]))
    && (forall i :: 0 <= i < |w| && w[i].Km? ==> Rank(w[i]) <= top)
  }

  /** The key of each packet went out before it, and that of no later turn of the same context did. */
  ghost predicate FifoOk(w: Wire) {
    forall i :: 0 <= i < |w| && w[i].Sent? ==>
      && Introduced(w[..i], w[i].gen)
      && forall j :: 0 <= j < i && w[j].Km? ==> w[j].gen <= w[i].gen + 1
  }

  /** Packets go out key after key, none beyond key `g`. */
  ghost predicate KeysInTurn(w: Wire, g: nat) {
    && (forall i, j :: 0 <= i < j < |w| && w[i].Sent? && w[j].Sent? ==> w[i].gen <= w[j].gen)
    && (forall i :: 0 <= i < |w| && w[i].Sent? ==> w[i].gen <= g)
  }

  /** Packets encrypted with key `g`. */
  function Count(w: Wire, g: nat): nat {
    if w == [] then 0
    else Count(w[..|w| - 1], g) + if w[|w| - 1].Sent? && w[|w| - 1].gen == g then 1 else 0
  }

  /** A message with `g` as its newest key went out. */
  predicate Newest(w: Wire, g: nat) {
    exists i :: 0 <= i < |w| && w[i].Km? && w[i].gen == g
  }

  /** Packets encrypted with the key before `g` after the first message that announces `g`. */
  function CountAnnounced(w: Wire, g: nat): nat {
    if w == [] then 0
    else
      var pre, last := w[..|w| - 1], w[|w| - 1];
      CountAnnounced(pre, g) + if last.Sent? && last.gen + 1 == g && Newest(pre, g) then 1 else 0
  }

  lemma CountAppend(w: Wire, it: Item, g: nat)
    ensures Count(w + [it], g) == Count(w, g) + if it.Sent? && it.gen == g then 1 else 0
    ensures CountAnnounced(w + [it], g) ==
            CountAnnounced(w, g) + if it.Sent? && it.gen + 1 == g && Newest(w, g) then 1 else 0
    ensures Newest(w + [it], g) <==> Newest(w, g) || (it.Km? && it.gen == g)
  {
    var w' := w + [it];
    assert w'[..|w'| - 1] == w;
    if Newest(w, g) {
      var i :| 0 <= i < |w| && w[i].Km? && w[i].gen == g;
      assert w'[i] == w[i];
    }
    if it.Km? && it.gen == g {
      assert w'[|w|] == it;
    }
  }

  lemma IntroducedAppend(w: Wire, it: Item, k: nat)
    ensures Introduced(w + [it], k) <==> Introduced(w, k) || Introduces(it, k)
  {
    var w' := w + [it];
    if Introduced(w, k) {
      var i :| 0 <= i < |w| && Introduces(w[i], k);
      assert w'[i] == w[i];
    }
    if Introduces(it, k) {
      assert w'[|w|] == it;
    }
  }

  /** What is on the wire. `g` is the current key, `top` and `both` the message announced now; `pending` tells that
      this message did not go out yet. */
  ghost predicate Ordered(w: Wire, g: nat, top: nat, both: bool, pending: bool) {
    && OrderOk(w, 2 * top - if both then 1 else 0)
    && FifoOk(w) && KeysInTurn(w, g)
    && (forall k: nat :: k <= top ==> Introduced(w, k) || (pending && k == top))
    && (forall i :: 0 <= i < |w| && w[i].Km? ==> w[i].gen <= top)
  }

  lemma FifoKm(w: Wire, it: Item)
    requires FifoOk(w) && it.Km?
    ensures FifoOk(w + [it])
  {
    var w' := w + [it];
    forall i | 0 <= i < |w'| && w'[i].Sent?
      ensures Introduced(w'[..i], w'[i].gen)
      ensures forall j :: 0 <= j < i && w'[j].Km? ==> w'[j].gen <= w'[i].gen + 1
    {
      assert w'[..i] == w[..i];
    }
  }

  lemma FifoSent(w: Wire, it: Item)
    requires FifoOk(w) && it.Sent? && Introduced(w, it.gen)
    requires forall j :: 0 <= j < |w| && w[j].Km? ==> w[j].gen <= it.gen + 1
    ensures FifoOk(w + [it])
  {
    var w' := w + [it];
    forall i | 0 <= i < |w'| && w'[i].Sent?
      ensures Introduced(w'[..i], w'[i].gen)
      ensures forall j :: 0 <= j < i && w'[j].Km? ==> w'[j].gen <= w'[i].gen + 1
    {
      assert w'[..i] == if i < |w| then w[..i] else w;
    }
  }

  lemma OrderAppend(w: Wire, it: Item, g: nat, top: int)
    requires OrderOk(w, top) && KeysInTurn(w, g) && (if it.Km? then Rank(it) == top else it.gen == g)
    ensures OrderOk(w + [it], top) && KeysInTurn(w + [it], g)
  {
  }

  lemma AppendKm(w: Wire, it: Item, g: nat, top: nat, both: bool, pending: bool)
    requires Ordered(w, g, top, both, pending) && it.Km? && it.gen == top && it.both == both
    ensures Ordered(w + [it], g, top, both, false)
  {
    forall k: nat | k <= top ensures Introduced(w + [it], k) {
      IntroducedAppend(w, it, k);
    }
    FifoKm(w, it);
    OrderAppend(w, it, g, Rank(it));
  }

  lemma AppendSent(w: Wire, it: Item, g: nat, top: nat, both: bool)
    requires Ordered(w, g, top, both, false) && it.Sent? && it.gen == g && g <= top <= g + 1
    ensures Ordered(w + [it], g, top, both, false)
  {
    forall k: nat | k <= top ensures Introduced(w + [it], k) {
      IntroducedAppend(w, it, k);
    }
    FifoSent(w, it);
    OrderAppend(w, it, g, 2 * top - if both then 1 else 0);
  }

  /** A turn of the rotation only moves the announced message on. */
  lemma TurnOrdered(w: Wire, g: nat, g': nat, top: nat, both: bool, top': nat, both': bool, pending: bool,
                    pending': bool)
    requires Ordered(w, g, top, both, pending) && g <= g'
    requires 2 * top - (if both then 1 else 0) <= 2 * top' - (if both' then 1 else 0)
    requires (top' == top && pending' == pending) || (top' == top + 1 && !pending && pending')
    ensures Ordered(w, g', top', both', pending')
  {
  }

  // ----- counting

  /** `x` is the packet count of the current key `g`. */
  ghost predicate Counted(w: Wire, g: nat, top: nat, x: int, r: Rates) {
    && Count(w, g) == x - (if g == 0 then 1 else 0)
    && (forall i: nat :: i < g ==> Count(w, i) == r.refresh + if i == 0 then 0 else 1)
    && (forall i: nat :: i > g ==> Count(w, i) == 0)
    && (forall i: nat :: 1 <= i <= g ==> CountAnnounced(w, i) == r.preAnnounce)
    && (forall i: nat :: i > g ==>
          CountAnnounced(w, i) == if i == top then x - (r.refresh - r.preAnnounce + 1) else 0)
  }

  lemma CountKm(w: Wire, it: Item, g: nat, top: nat, x: int, r: Rates)
    requires Counted(w, g, top, x, r) && it.Km?
    ensures Counted(w + [it], g, top, x, r)
  {
    forall i: nat
      ensures Count(w + [it], i) == Count(w, i) && CountAnnounced(w + [it], i) == CountAnnounced(w, i)
    {
      CountAppend(w, it, i);
    }
  }

  lemma CountSent(w: Wire, it: Item, g: nat, top: nat, x: int, r: Rates)
    requires Counted(w, g, top, x, r) && it.Sent? && it.gen == g && g <= top <= g + 1
    requires Newest(w, g + 1) <==> top == g + 1
    ensures Counted(w + [it], g, top, x + 1, r)
  {
    forall i: nat
      ensures Count(w + [it], i) == Count(w, i) + if i == g then 1 else 0
      ensures CountAnnounced(w + [it], i) == CountAnnounced(w, i) + if i == g + 1 == top then 1 else 0
    {
      CountAppend(w, it, i);
    }
  }

  /** The next key takes over when its predecessor's count is full. */
  lemma CountSwitch(w: Wire, g: nat, r: Rates)
    requires Counted(w, g, g + 1, r.refresh + 1, r)
    ensures Counted(w, g + 1, g + 1, 0, r)
  {
  }

  lemma CountRefresh(w: Wire, g: nat, r: Rates)
    requires Counted(w, g, g, r.refresh - r.preAnnounce + 1, r)
    ensures Counted(w, g, g + 1, r.refresh - r.preAnnounce + 1, r)
  {
  }

  // ----- steps

  /** What holds of the whole run between packets. */
  ghost predicate WireInv(run: Run, r: Rates, salt: Bytes) {
    && Rotating(run, r, salt)
    && ItemsOk(run.wire, run.tx.kek, salt, run.seks)
    && Ordered(run.wire, run.gen, TopGen(run), TopBoth(run), run.tx.Cur().ttsend)
    && Counted(run.wire, run.gen, TopGen(run), run.tx.Cur().pktCnt, r)
  }

  lemma ItemsGrow(w: Wire, kek: Cipher, salt: Bytes, seks: seq<Bytes>, sek: Bytes)
    requires GoodKeys(salt, seks) && ItemsOk(w, kek, salt, seks) && GoodKeys(salt, seks + [sek])
    ensures ItemsOk(w, kek, salt, seks + [sek])
  {
    forall i | 0 <= i < |w| ensures ItemOk(w[i], kek, salt, seks + [sek]) {
      var it := w[i];
      assert ItemOk(it, kek, salt, seks);
      assert (seks + [sek])[it.gen] == seks[it.gen];
      if it.Km? && it.both {
        assert (seks + [sek])[it.gen - 1] == seks[it.gen - 1];
      }
    }
  }

  /** The run after ManageKM, before anything goes out. */
  function BeforeSend(run: Run, r: Rates, tick: bool, sek: Bytes): Run
    requires r.preAnnounce <= r.refresh && TurnAllowed(run.tx, r, sek)
  {
    var m := Managed(run, r, sek);
    m.(tx := Ticked(m.tx, tick))
  }

  function Announcer(run: Run): TxCtx {
    if run.tx.Cur().announce then run.tx.Cur() else run.tx.Alt()
  }

  /** The wire after the announced message went out, if its time has come. */
  function WithKm(run: Run): Wire {
    if Announcer(run).ttsend then run.wire + [Km(TopGen(run), TopBoth(run), Announcer(run).km)] else run.wire
  }

  function MediaOf(run: Run): Item {
    Sent(run.gen, Media(run.tx.cur, run.tx.Cur().salt, run.tx.Cur().sek))
  }

  /** The messages of a step, in terms of the state between ManageKM and the packet. */
  lemma KmsAre(m: Run, r: Rates, salt: Bytes, n: nat)
    requires RotatingAt(m, r, salt, n)
    ensures Labelled(AnnouncedGen(m), InjectKM(m.tx).1) ==
            if Announcer(m).ttsend then [Km(TopGen(m), TopBoth(m), Announcer(m).km)] else []
  {
    InjectedIs(m, r, salt, n);
    AnnouncerIs(m, r, salt, n);
  }

  lemma ProcessIs(tx: Tx, r: Rates, tick: bool, sek: Bytes)
    requires r.preAnnounce <= r.refresh && TurnAllowed(tx, r, sek)
    ensures var mx := ManageKM(tx, r, tick, sek);
            Process(tx, r, tick, sek) ==
            (SentTx(mx), InjectKM(mx).1, Media(mx.cur, mx.Cur().salt, mx.Cur().sek))
  {
  }

  lemma SameAnnounced(m: Run)
    requires m.tx.Cur().pktCnt < 0xFFFF_FFFF
    ensures AnnouncedGen(m.(tx := SentTx(m.tx))) == AnnouncedGen(m)
  {
    SentTxIs(m.tx);
  }

  lemma StepParts(run: Run, r: Rates, tick: bool, sek: Bytes)
    requires r.preAnnounce <= r.refresh && TurnAllowed(run.tx, r, sek)
    ensures var m := BeforeSend(run, r, tick, sek);
            var kms := Labelled(AnnouncedGen(m.(tx := SentTx(m.tx))), InjectKM(m.tx).1);
            Step(run, r, tick, sek) == Run(SentTx(m.tx), m.seks, m.gen, m.wire + kms + [MediaOf(m)])
  {
    ProcessIs(run.tx, r, tick, sek);
  }

  /** What a step does, in terms of the state between ManageKM and the packet. */
  lemma StepIs(run: Run, r: Rates, salt: Bytes, tick: bool, sek: Bytes, n: nat)
    requires r.preAnnounce <= r.refresh && TurnAllowed(run.tx, r, sek)
    requires RotatingAt(BeforeSend(run, r, tick, sek), r, salt, n)
    requires BeforeSend(run, r, tick, sek).tx.Cur().pktCnt < 0xFFFF_FFFF
    ensures var m := BeforeSend(run, r, tick, sek);
            Step(run, r, tick, sek) == Run(SentTx(m.tx), m.seks, m.gen, WithKm(m) + [MediaOf(m)])
  {
    var m := BeforeSend(run, r, tick, sek);
    StepParts(run, r, tick, sek);
    KmsAre(m, r, salt, n);
    SameAnnounced(m);
    assert m.wire + [] == m.wire;
  }

  /** What holds between ManageKM and the packet. A message that did not go out yet is about to. */
  ghost predicate MidInv(m: Run, r: Rates, salt: Bytes, pending: bool) {
    && RotatingAt(m, r, salt, m.tx.Cur().pktCnt + 1)
    && ItemsOk(m.wire, m.tx.kek, salt, m.seks)
    && Ordered(m.wire, m.gen, TopGen(m), TopBoth(m), pending)
    && Counted(m.wire, m.gen, TopGen(m), m.tx.Cur().pktCnt, r)
    && (pending ==> Announcer(m).ttsend)
  }

  /** Nothing is on the wire yet or everything that was announced is. */
  predicate Pending(run: Run, r: Rates)
    requires r.preAnnounce <= r.refresh
  {
    run.tx.Cur().ttsend || TurnOf(run.tx, r) == DoRefresh
  }

  /** From where to where a switch leads. */
  lemma SwitchMoves(run: Run, r: Rates, salt: Bytes, sek: Bytes)
    requires Rotating(run, r, salt) && r.Valid() && FreshKey(run, sek) && TurnAllowed(run.tx, r, sek)
    requires TurnOf(run.tx, r) == DoSwitch
    ensures TopGen(run) == run.gen + 1 && TopBoth(run) && !run.tx.Cur().ttsend
    ensures run.tx.Cur().pktCnt == r.refresh + 1
    ensures var m := Managed(run, r, sek);
            && m.gen == run.gen + 1 && m.wire == run.wire && m.seks == run.seks
            && TopGen(m) == run.gen + 1 && TopBoth(m)
            && m.tx.kek == run.tx.kek && m.tx.Cur().pktCnt == 0
  {
    SwitchIs(run.tx);
  }

  lemma SwitchWire(run: Run, r: Rates, salt: Bytes, sek: Bytes)
    requires WireInv(run, r, salt) && r.Valid() && FreshKey(run, sek) && TurnAllowed(run.tx, r, sek)
    requires TurnOf(run.tx, r) == DoSwitch
    ensures MidInv(Managed(run, r, sek), r, salt, false)
  {
    SwitchKeeps(run, r, salt, sek);
    SwitchMoves(run, r, salt, sek);
    CountSwitch(run.wire, run.gen, r);
    TurnOrdered(run.wire, run.gen, run.gen + 1, run.gen + 1, true, run.gen + 1, true, false, false);
  }

  /** From where to where a refresh leads. */
  lemma RefreshMoves(run: Run, r: Rates, salt: Bytes, sek: Bytes)
    requires Rotating(run, r, salt) && r.Valid() && FreshKey(run, sek) && TurnAllowed(run.tx, r, sek)
    requires TurnOf(run.tx, r) == DoRefresh
    ensures TopGen(run) == run.gen && !TopBoth(run) && !run.tx.Cur().ttsend
    ensures run.tx.Cur().pktCnt == r.refresh - r.preAnnounce + 1
    ensures var m := Managed(run, r, sek);
            && m.gen == run.gen && m.wire == run.wire && m.seks == run.seks + [sek]
            && TopGen(m) == run.gen + 1 && TopBoth(m)
            && m.tx.kek == run.tx.kek && m.tx.Cur().pktCnt == run.tx.Cur().pktCnt && Announcer(m).ttsend
  {
    RefreshIs(run.tx, sek);
  }

  lemma RefreshWire(run: Run, r: Rates, salt: Bytes, sek: Bytes)
    requires WireInv(run, r, salt) && r.Valid() && FreshKey(run, sek) && TurnAllowed(run.tx, r, sek)
    requires TurnOf(run.tx, r) == DoRefresh
    ensures MidInv(Managed(run, r, sek), r, salt, true)
  {
    RefreshKeeps(run, r, salt, sek);
    RefreshMoves(run, r, salt, sek);
    ItemsGrow(run.wire, run.tx.kek, salt, run.seks, sek);
    CountRefresh(run.wire, run.gen, r);
    TurnOrdered(run.wire, run.gen, run.gen, run.gen, false, run.gen + 1, true, false, true);
  }

  lemma PostSwitchWire(run: Run, r: Rates, salt: Bytes, sek: Bytes)
    requires WireInv(run, r, salt) && r.Valid() && FreshKey(run, sek) && TurnAllowed(run.tx, r, sek)
    requires TurnOf(run.tx, r) == DoPostSwitch
    ensures MidInv(Managed(run, r, sek), r, salt, false)
  {
    PostSwitchKeeps(run, r, salt, sek);
    TurnOrdered(run.wire, run.gen, run.gen, run.gen, true, run.gen, false, false, false);
  }

  lemma StayWire(run: Run, r: Rates, salt: Bytes, sek: Bytes)
    requires WireInv(run, r, salt) && r.Valid() && FreshKey(run, sek) && TurnAllowed(run.tx, r, sek)
    requires TurnOf(run.tx, r) == Stay
    ensures MidInv(Managed(run, r, sek), r, salt, run.tx.Cur().ttsend)
  {
    StayKeeps(run, r, salt, sek);
  }

  lemma TurnWire(run: Run, r: Rates, salt: Bytes, sek: Bytes)
    requires WireInv(run, r, salt) && r.Valid() && FreshKey(run, sek) && TurnAllowed(run.tx, r, sek)
    ensures MidInv(Managed(run, r, sek), r, salt, Pending(run, r))
  {
    match TurnOf(run.tx, r)
    case DoSwitch => SwitchWire(run, r, salt, sek);
    case DoRefresh => RefreshWire(run, r, salt, sek);
    case DoPostSwitch => PostSwitchWire(run, r, salt, sek);
    case Stay => StayWire(run, r, salt, sek);
  }

  lemma TickWire(m: Run, r: Rates, salt: Bytes, pending: bool, tick: bool)
    requires MidInv(m, r, salt, pending)
    ensures MidInv(m.(tx := Ticked(m.tx, tick)), r, salt, pending)
  {
    TickKeeps(m, r, salt, m.tx.Cur().pktCnt + 1, tick);
  }

  lemma KmItemOk(m: Run, r: Rates, salt: Bytes, n: nat)
    requires RotatingAt(m, r, salt, n)
    ensures ItemOk(Km(TopGen(m), TopBoth(m), Announcer(m).km), m.tx.kek, salt, m.seks)
    ensures ItemOk(MediaOf(m), m.tx.kek, salt, m.seks)
    ensures m.gen <= TopGen(m) <= m.gen + 1
  {
    AnnouncerIs(m, r, salt, n);
  }

  lemma ItemsAppend(w: Wire, it: Item, kek: Cipher, salt: Bytes, seks: seq<Bytes>)
    requires GoodKeys(salt, seks) && ItemsOk(w, kek, salt, seks) && ItemOk(it, kek, salt, seks)
    ensures ItemsOk(w + [it], kek, salt, seks)
  {
  }

  /** What goes out keeps the wire in order. */
  lemma KmKeeps(m: Run, r: Rates, salt: Bytes, pending: bool)
    requires MidInv(m, r, salt, pending)
    ensures ItemsOk(WithKm(m), m.tx.kek, salt, m.seks)
    ensures Ordered(WithKm(m), m.gen, TopGen(m), TopBoth(m), false)
    ensures Counted(WithKm(m), m.gen, TopGen(m), m.tx.Cur().pktCnt, r)
  {
    KmItemOk(m, r, salt, m.tx.Cur().pktCnt + 1);
    if Announcer(m).ttsend {
      var it := Km(TopGen(m), TopBoth(m), Announcer(m).km);
      ItemsAppend(m.wire, it, m.tx.kek, salt, m.seks);
      AppendKm(m.wire, it, m.gen, TopGen(m), TopBoth(m), pending);
      CountKm(m.wire, it, m.gen, TopGen(m), m.tx.Cur().pktCnt, r);
    }
  }

  /** The newest key on the wire is the one announced now. */
  lemma NewestIs(w: Wire, g: nat, top: nat, both: bool)
    requires Ordered(w, g, top, both, false) && g <= top <= g + 1
    ensures Newest(w, g + 1) <==> top == g + 1
  {
    if top == g + 1 {
      assert Introduced(w, top);
      var i :| 0 <= i < |w| && Introduces(w[i], top);
      assert w[i].gen <= top;
    }
  }

  /** The packet itself. */
  lemma PacketKeeps(w: Wire, it: Item, g: nat, top: nat, both: bool, x: int, r: Rates, kek: Cipher, salt: Bytes,
                    seks: seq<Bytes>)
    requires GoodKeys(salt, seks) && ItemsOk(w, kek, salt, seks) && ItemOk(it, kek, salt, seks)
    requires Ordered(w, g, top, both, false) && Counted(w, g, top, x, r)
    requires it.Sent? && it.gen == g && g <= top <= g + 1
    ensures ItemsOk(w + [it], kek, salt, seks)
    ensures Ordered(w + [it], g, top, both, false) && Counted(w + [it], g, top, x + 1, r)
  {
    NewestIs(w, g, top, both);
    ItemsAppend(w, it, kek, salt, seks);
    AppendSent(w, it, g, top, both);
    CountSent(w, it, g, top, x, r);
  }

  /** The wire after the packet. */
  lemma SendParts(m: Run, r: Rates, salt: Bytes, pending: bool, w: Wire)
    requires MidInv(m, r, salt, pending) && w == WithKm(m) + [MediaOf(m)]
    ensures ItemsOk(w, m.tx.kek, salt, m.seks)
    ensures Ordered(w, m.gen, TopGen(m), TopBoth(m), false)
    ensures Counted(w, m.gen, TopGen(m), m.tx.Cur().pktCnt + 1, r)
  {
    var x := m.tx.Cur().pktCnt;
    KmKeeps(m, r, salt, pending);
    KmItemOk(m, r, salt, x + 1);
    PacketKeeps(WithKm(m), MediaOf(m), m.gen, TopGen(m), TopBoth(m), x, r, m.tx.kek, salt, m.seks);
  }

  lemma SendWire(m: Run, r: Rates, salt: Bytes, pending: bool)
    requires MidInv(m, r, salt, pending) && r.Valid()
    ensures WireInv(Run(SentTx(m.tx), m.seks, m.gen, WithKm(m) + [MediaOf(m)]), r, salt)
  {
    var w := WithKm(m) + [MediaOf(m)];
    SendParts(m, r, salt, pending, w);
    SendKeeps(m, r, salt, w);
  }

  /** The state between ManageKM and the packet. */
  lemma BeforeSendKeeps(run: Run, r: Rates, salt: Bytes, tick: bool, sek: Bytes)
    requires WireInv(run, r, salt) && r.Valid() && FreshKey(run, sek) && TurnAllowed(run.tx, r, sek)
    ensures var m := BeforeSend(run, r, tick, sek);
            MidInv(m, r, salt, Pending(run, r)) && m.tx.Cur().pktCnt < 0xFFFF_FFFF
  {
    TurnWire(run, r, salt, sek);
    TickWire(Managed(run, r, sek), r, salt, Pending(run, r), tick);
    var m := BeforeSend(run, r, tick, sek);
    CountBound(m, r, salt, m.tx.Cur().pktCnt + 1);
  }

  lemma StepKeeps(run: Run, r: Rates, salt: Bytes, tick: bool, sek: Bytes)
    requires WireInv(run, r, salt) && r.Valid() && FreshKey(run, sek) && TurnAllowed(run.tx, r, sek)
    ensures WireInv(Step(run, r, tick, sek), r, salt)
  {
    BeforeSendKeeps(run, r, salt, tick, sek);
    var m := BeforeSend(run, r, tick, sek);
    StepIs(run, r, salt, tick, sek, m.tx.Cur().pktCnt + 1);
    SendWire(m, r, salt, Pending(run, r));
  }

  /** What a step puts on the wire: the announced message if it is due, and the packet. */
  lemma StepSends(run: Run, r: Rates, salt: Bytes, tick: bool, sek: Bytes)
    requires WireInv(run, r, salt) && r.Valid() && FreshKey(run, sek) && TurnAllowed(run.tx, r, sek)
    ensures var m := BeforeSend(run, r, tick, sek);
            var run' := Step(run, r, tick, sek);
            && m.wire == run.wire && run'.wire == WithKm(m) + [MediaOf(m)] && run'.gen == m.gen
            && TopGen(run') == TopGen(m) && TopBoth(run') == TopBoth(m)
  {
    BeforeSendKeeps(run, r, salt, tick, sek);
    var m := BeforeSend(run, r, tick, sek);
    StepIs(run, r, salt, tick, sek, m.tx.Cur().pktCnt + 1);
    SendKeeps(m, r, salt, WithKm(m) + [MediaOf(m)]);
  }

  lemma DueAnnouncer(run: Run, r: Rates, salt: Bytes, sek: Bytes)
    requires WireInv(run, r, salt) && r.Valid() && FreshKey(run, sek) && TurnAllowed(run.tx, r, sek)
    ensures Announcer(BeforeSend(run, r, true, sek)).ttsend
  {
    BeforeSendKeeps(run, r, salt, true, sek);
    var m := BeforeSend(run, r, true, sek);
    AnnouncerIs(m, r, salt, m.tx.Cur().pktCnt + 1);
    TickedIs(Managed(run, r, sek));
  }

  /** When the announcing period is over, the message that is announced goes out again, before the packet. */
  lemma AnnouncedWhenDue(run: Run, r: Rates, salt: Bytes, sek: Bytes)
    requires WireInv(run, r, salt) && r.Valid() && FreshKey(run, sek) && TurnAllowed(run.tx, r, sek)
    ensures var run' := Step(run, r, true, sek);
            var n := |run.wire|;
            && |run'.wire| == n + 2 && run'.wire[..n] == run.wire
            && run'.wire[n].Km? && run'.wire[n].gen == TopGen(run') && run'.wire[n].both == TopBoth(run')
            && run'.wire[n + 1].Sent? && run'.wire[n + 1].gen == run'.gen
  {
    StepSends(run, r, salt, true, sek);
    DueAnnouncer(run, r, salt, sek);
  }

  lemma TickedIs(m: Run)
    ensures var m' := m.(tx := Ticked(m.tx, true)); Announcer(m').announce ==> Announcer(m').ttsend
  {
  }

  /** Between the periods only packets go out, but for the message that announces a new key. */
  lemma SilentOtherwise(run: Run, r: Rates, salt: Bytes, sek: Bytes)
    requires WireInv(run, r, salt) && r.Valid() && FreshKey(run, sek) && TurnAllowed(run.tx, r, sek)
    requires !run.tx.Cur().ttsend && TurnOf(run.tx, r) != DoRefresh
    ensures var run' := Step(run, r, false, sek);
            |run'.wire| == |run.wire| + 1 && run'.wire[..|run.wire|] == run.wire
            && run'.wire[|run.wire|].Sent? && run'.wire[|run.wire|].gen == run'.gen
  {
    StepSends(run, r, salt, false, sek);
    NothingDue(run, r, salt, sek);
  }

  lemma NothingDue(run: Run, r: Rates, salt: Bytes, sek: Bytes)
    requires Rotating(run, r, salt) && r.Valid() && FreshKey(run, sek) && TurnAllowed(run.tx, r, sek)
    requires !run.tx.Cur().ttsend && TurnOf(run.tx, r) != DoRefresh
    ensures !Announcer(BeforeSend(run, r, false, sek)).ttsend
  {
    SwitchIs(run.tx);
  }

  // ----- whole runs

  function InitRun(kek: Cipher, salt: Bytes, sek: Bytes): Run
    requires Keys(salt, sek)
  {
    Run(Create(kek, salt, sek), [sek], 0, [])
  }

  lemma InitWire(kek: Cipher, r: Rates, salt: Bytes, sek: Bytes)
    requires Keys(salt, sek) && Permutation(kek) && r.Valid()
    ensures WireInv(InitRun(kek, salt, sek), r, salt)
  {
  }

  /** For each packet: whether the announcing period is over, and the key the random generator would give. */
  type Inputs = seq<(bool, Bytes)>

  /** The inputs lead from one run to another; a key is never made twice, and no assertion fails on the way. */
  ghost predicate Leads(run: Run, r: Rates, ins: Inputs, run': Run)
    decreases |ins|
  {
    if ins == [] then run == run'
    else
      && r.preAnnounce <= r.refresh && FreshKey(run, ins[0].1) && TurnAllowed(run.tx, r, ins[0].1)
      && Leads(Step(run, r, ins[0].0, ins[0].1), r, ins[1..], run')
  }

  lemma {:induction false} RunKeeps(run: Run, r: Rates, salt: Bytes, ins: Inputs, run': Run)
    requires WireInv(run, r, salt) && r.Valid() && Leads(run, r, ins, run')
    ensures WireInv(run', r, salt)
    decreases |ins|
  {
    if ins != [] {
      StepKeeps(run, r, salt, ins[0].0, ins[0].1);
      RunKeeps(Step(run, r, ins[0].0, ins[0].1), r, salt, ins[1..], run');
    }
  }

  lemma CountsAreBounded(w: Wire, g: nat, top: nat, x: int, r: Rates)
    requires Counted(w, g, top, x, r) && x <= r.refresh + 1
    ensures forall i: nat :: Count(w, i) <= r.refresh + 1
    ensures forall i: nat :: 1 <= i <= g ==> CountAnnounced(w, i) == r.preAnnounce
  {
  }

  /** Sender safety over every run: one context is active and it is the current one, whatever comes next meets the
      assertions, no key encrypts more than the refresh rate and one packets, and each key was announced for exactly
      as many packets as configured before its first packet. */
  lemma RotationIsSafe(kek: Cipher, r: Rates, salt: Bytes, sek0: Bytes, ins: Inputs, run: Run)
    requires Keys(salt, sek0) && Permutation(kek) && r.Valid() && Leads(InitRun(kek, salt, sek0), r, ins, run)
    ensures run.tx.Cur().status == ACTIVE && run.tx.Alt().status != ACTIVE
    ensures forall sek :: FreshKey(run, sek) ==> TurnAllowed(run.tx, r, sek)
    ensures forall g: nat :: Count(run.wire, g) <= r.refresh + 1
    ensures forall g: nat :: 1 <= g <= run.gen ==> CountAnnounced(run.wire, g) == r.preAnnounce
    ensures KeysInTurn(run.wire, run.gen)
  {
    InitWire(kek, r, salt, sek0);
    RunKeeps(InitRun(kek, salt, sek0), r, salt, ins, run);
    forall sek | FreshKey(run, sek) ensures TurnAllowed(run.tx, r, sek) {
      AssertionsHold(run, r, salt, sek);
    }
    CountBound(run, r, salt, run.tx.Cur().pktCnt);
    CountsAreBounded(run.wire, run.gen, TopGen(run), run.tx.Cur().pktCnt, r);
  }
}
