/** The sender's key rotation: two contexts, even and odd, take turns. Each packet goes through ManageKM, InjectKM,
    encryption and the packet count, as in HaiCrypt_Tx_Process. */
module KeyRotation {
  import opened Packets
  import opened KeyWrap
  import opened KmMessage

  const ACTIVE := 4
  const DEPRECATED := 5

  datatype TxCtx = TxCtx(status: nat, announce: bool, ttsend: bool, salt: Bytes, sek: Bytes, pktCnt: nat, km: Bytes)

  /** A sending session: the even and the odd context, which of them is current, and the key-encrypting key. */
  datatype Tx = Tx(even: TxCtx, odd: TxCtx, cur: bool, kek: Cipher) {
    function Ctx(isOdd: bool): TxCtx {
      if isOdd then odd else even
    }

    function With(isOdd: bool, c: TxCtx): Tx {
      if isOdd then this.(odd := c) else this.(even := c)
    }

    function Cur(): TxCtx { Ctx(cur) }

    function Alt(): TxCtx { Ctx(!cur) }

    function WithCur(c: TxCtx): Tx { With(cur, c) }

    function WithAlt(c: TxCtx): Tx { With(!cur, c) }
  }

  /** After how many packets a key is replaced, and how many before that the next one is announced. */
  datatype Rates = Rates(refresh: nat, preAnnounce: nat) {
    ghost predicate Valid() {
      1 <= preAnnounce && 2 * preAnnounce < refresh && refresh + 1 < 0x8000_0000
    }
  }

  /** Messages can be assembled: keys of a supported length, and a salt. */
  ghost predicate Keys(salt: Bytes, sek: Bytes) {
    |salt| == SALT_SZ && KeyLength(|sek|)
  }

  function SingleKm(kek: Cipher, odd: bool, salt: Bytes, sek: Bytes): Bytes
    requires Keys(salt, sek)
  {
    Assemble(kek, odd, salt, sek, None)
  }

  function DoubleKm(kek: Cipher, odd: bool, salt: Bytes, sek: Bytes, altSek: Bytes): Bytes
    requires Keys(salt, sek) && |altSek| == |sek|
  {
    Assemble(kek, odd, salt, sek, Some(altSek))
  }

  /** HaiCrypt_Create for a sender: the even context is keyed and becomes the current one. */
  function Create(kek: Cipher, salt: Bytes, sek: Bytes): Tx
    requires Keys(salt, sek)
  {
    Tx(TxCtx(ACTIVE, true, true, salt, sek, 1, SingleKm(kek, false, salt, sek)),
       TxCtx(SARDY, false, false, [], [], 0, []),
       false, kek)
  }

  /** A new key for the other context, announced together with the current one. */
  function Refresh(tx: Tx, sek: Bytes): Tx
    requires Keys(tx.Cur().salt, sek) && |tx.Cur().sek| == |sek|
  {
    var c := tx.Cur();
    tx.WithAlt(TxCtx(KEYED, tx.Alt().announce, tx.Alt().ttsend, c.salt, sek, 0,
                     DoubleKm(tx.kek, !tx.cur, c.salt, sek, c.sek)))
  }

  predicate BothIn(km: Bytes) {
    |km| > OFS_KFLGS && HasBoth(km)
  }

  function PreSwitch(tx: Tx): Tx {
    var tx1 := tx.WithAlt(tx.Alt().(announce := true, ttsend := true));
    if BothIn(tx1.Alt().km) then tx1.WithCur(tx1.Cur().(announce := false)) else tx1
  }

  function Switch(tx: Tx): Tx {
    tx.WithCur(tx.Cur().(status := DEPRECATED)).WithAlt(tx.Alt().(status := ACTIVE, announce := true)).(cur := !tx.cur)
  }

  function PostSwitch(tx: Tx): Tx
    requires Keys(tx.Cur().salt, tx.Cur().sek)
  {
    var tx1 := tx.WithAlt(tx.Alt().(announce := false, status := SARDY));
    var c := tx.Cur();
    if BothIn(c.km) then tx1.WithCur(c.(km := SingleKm(tx.kek, tx.cur, c.salt, c.sek))) else tx1
  }

  /** Which step ManageKM takes. */
  datatype Turn = DoSwitch | DoRefresh | DoPostSwitch | Stay

  function TurnOf(tx: Tx, r: Rates): Turn
    requires r.preAnnounce <= r.refresh
  {
    var n := tx.Cur().pktCnt;
    if n > r.refresh || n == 0 then DoSwitch
    else if n > r.refresh - r.preAnnounce && !tx.Alt().announce then DoRefresh
    else if tx.Alt().status == DEPRECATED && n > r.preAnnounce then DoPostSwitch
    else Stay
  }

  /** What the assertions of Switch, Refresh and PreSwitch demand of each step. */
  ghost predicate TurnAllowed(tx: Tx, r: Rates, sek: Bytes)
    requires r.preAnnounce <= r.refresh
  {
    && Keys(tx.Cur().salt, tx.Cur().sek) && KeyLength(|sek|) && |sek| == |tx.Cur().sek|
    && match TurnOf(tx, r)
       case DoSwitch => tx.Alt().status >= KEYED
       case DoRefresh => tx.Cur().status == ACTIVE && tx.Alt().status >= SARDY
       case _ => true
  }

  /** The keys are managed before a packet is sent; `sek` is what the random generator would give. */
  function Turned(tx: Tx, r: Rates, sek: Bytes): Tx
    requires r.preAnnounce <= r.refresh && TurnAllowed(tx, r, sek)
  {
    match TurnOf(tx, r)
    case DoSwitch => Switch(tx)
    case DoRefresh => PreSwitch(Refresh(tx, sek))
    case DoPostSwitch => PostSwitch(tx)
    case Stay => tx
  }

  function Due(c: TxCtx): TxCtx {
    if c.announce then c.(ttsend := true) else c
  }

  /** `tick` says that the announcing period is over. */
  function Ticked(tx: Tx, tick: bool): Tx {
    if tick then tx.(even := Due(tx.even), odd := Due(tx.odd)) else tx
  }

  function ManageKM(tx: Tx, r: Rates, tick: bool, sek: Bytes): Tx
    requires r.preAnnounce <= r.refresh && TurnAllowed(tx, r, sek)
  {
    Ticked(Turned(tx, r, sek), tick)
  }

  /** The messages that go out now. */
  function InjectKM(tx: Tx): (Tx, seq<Bytes>) {
    (tx.(even := tx.even.(ttsend := false), odd := tx.odd.(ttsend := false)),
     (if tx.even.ttsend then [tx.even.km] else []) + (if tx.odd.ttsend then [tx.odd.km] else []))
  }

  /** A media packet on the wire: its key flag, and what it was encrypted with. */
  datatype Media = Media(odd: bool, salt: Bytes, sek: Bytes)

  /** One packet is processed: the messages that go out before it, and the packet. */
  function Process(tx: Tx, r: Rates, tick: bool, sek: Bytes): (Tx, seq<Bytes>, Media)
    requires r.preAnnounce <= r.refresh && TurnAllowed(tx, r, sek)
  {
    var (tx1, kms) := InjectKM(ManageKM(tx, r, tick, sek));
    var c := tx1.Cur();
    (tx1.WithCur(c.(pktCnt := (c.pktCnt + 1) % 0x1_0000_0000)), kms, Media(tx1.cur, c.salt, c.sek))
  }

  // ----- runs

  /** A message on the wire that introduces key `gen`, alone or together with the key before it, or a packet
      encrypted with key `gen`. Keys are numbered from 0 in the order they were made. */
  datatype Item =
    | Km(gen: nat, both: bool, bytes: Bytes)
    | Sent(gen: nat, media: Media)

  /** The session, all keys made so far, the number of the current one, and all that was sent. */
  datatype Run = Run(tx: Tx, seks: seq<Bytes>, gen: nat, wire: seq<Item>)

  predicate IsOdd(gen: nat) {
    gen % 2 == 1
  }

  lemma NextIsOdd(gen: nat)
    ensures IsOdd(gen + 1) == !IsOdd(gen)
  {
  }

  /** The message that introduces key `gen`. */
  function KmBytes(kek: Cipher, salt: Bytes, seks: seq<Bytes>, gen: nat, both: bool): Bytes
    requires gen < |seks| && Keys(salt, seks[gen])
    requires both ==> gen >= 1 && |seks[gen - 1]| == |seks[gen]|
  {
    if both then DoubleKm(kek, IsOdd(gen), salt, seks[gen], seks[gen - 1])
    else SingleKm(kek, IsOdd(gen), salt, seks[gen])
  }

  /** All keys have one length, and no two of them are the same. */
  ghost predicate GoodKeys(salt: Bytes, seks: seq<Bytes>) {
    && |salt| == SALT_SZ && seks != []
    && (forall i :: 0 <= i < |seks| ==> KeyLength(|seks[i]|) && |seks[i]| == |seks[0]|)
    && (forall i, j :: 0 <= i < j < |seks| ==> seks[i] != seks[j])
  }

  /** The phases of a key: alone; announcing its successor; and just after it took over. */
  datatype Phase = Alone | Announcing | TookOver

  function PhaseOf(run: Run): Phase {
    var s := run.tx.Alt().status;
    if s == KEYED then Announcing else if s == DEPRECATED then TookOver else Alone
  }

  ghost predicate CurOk(run: Run, salt: Bytes) {
    var tx, g := run.tx, run.gen;
    && g < |run.seks|
    && tx.cur == IsOdd(g)
    && tx.Cur().status == ACTIVE && tx.Cur().salt == salt && tx.Cur().sek == run.seks[g]
    && (tx.Cur().ttsend ==> tx.Cur().announce) && (tx.Alt().ttsend ==> tx.Alt().announce)
  }

  ghost predicate AloneOk(run: Run, r: Rates, salt: Bytes, n: nat)
    requires CurOk(run, salt) && GoodKeys(salt, run.seks)
  {
    var tx, g := run.tx, run.gen;
    && |run.seks| == g + 1
    && tx.Alt().status == SARDY && !tx.Alt().announce && tx.Cur().announce
    && tx.Cur().km == KmBytes(tx.kek, salt, run.seks, g, false)
    && 1 <= n <= r.refresh - r.preAnnounce + 1
  }

  ghost predicate AnnouncingOk(run: Run, r: Rates, salt: Bytes, n: nat)
    requires CurOk(run, salt) && GoodKeys(salt, run.seks)
  {
    var tx, g := run.tx, run.gen;
    && |run.seks| == g + 2
    && tx.Alt().status == KEYED && tx.Alt().announce && !tx.Cur().announce
    && tx.Alt().salt == salt && tx.Alt().sek == run.seks[g + 1] && tx.Alt().pktCnt == 0
    && tx.Alt().km == KmBytes(tx.kek, salt, run.seks, g + 1, true)
    && r.refresh - r.preAnnounce + 1 < n <= r.refresh + 1
  }

  ghost predicate TookOverOk(run: Run, r: Rates, salt: Bytes, n: nat)
    requires CurOk(run, salt) && GoodKeys(salt, run.seks)
  {
    var tx, g := run.tx, run.gen;
    && |run.seks| == g + 1 && g >= 1
    && tx.Alt().status == DEPRECATED && !tx.Alt().announce && tx.Cur().announce
    && tx.Cur().km == KmBytes(tx.kek, salt, run.seks, g, true)
    && 1 <= n <= r.preAnnounce + 1
  }

  /** Exactly one context is active, it is the current one, and it is in one of the phases, with packet count `n`. */
  ghost predicate RotatingAt(run: Run, r: Rates, salt: Bytes, n: nat) {
    && GoodKeys(salt, run.seks)
    && Permutation(run.tx.kek)
    && CurOk(run, salt)
    && match PhaseOf(run)
       case Alone => AloneOk(run, r, salt, n)
       case Announcing => AnnouncingOk(run, r, salt, n)
       case TookOver => TookOverOk(run, r, salt, n)
  }

  /** Nothing waits to be sent, but for the first message of all. */
  ghost predicate Quiet(run: Run) {
    !run.tx.Alt().ttsend && (run.tx.Cur().ttsend ==> run.gen == 0 && run.tx.Cur().pktCnt == 1)
  }

  /** Between packets. */
  ghost predicate Rotating(run: Run, r: Rates, salt: Bytes) {
    RotatingAt(run, r, salt, run.tx.Cur().pktCnt) && Quiet(run)
  }

  /** What the step makes of the list of keys, and of the number of the current one. */
  function NextSeks(run: Run, r: Rates, sek: Bytes): seq<Bytes>
    requires r.preAnnounce <= r.refresh
  {
    if TurnOf(run.tx, r) == DoRefresh then run.seks + [sek] else run.seks
  }

  function NextGen(run: Run, r: Rates): nat
    requires r.preAnnounce <= r.refresh
  {
    if TurnOf(run.tx, r) == DoSwitch then run.gen + 1 else run.gen
  }

  /** The key that is announced: that of the context that announces. */
  function AnnouncedGen(run: Run): nat {
    if run.tx.Cur().announce then run.gen else run.gen + 1
  }

  /** The messages that go out, as items. */
  function Labelled(gen: nat, kms: seq<Bytes>): seq<Item> {
    seq(|kms|, i requires 0 <= i < |kms| => Km(gen, BothIn(kms[i]), kms[i]))
  }

  function Step(run: Run, r: Rates, tick: bool, sek: Bytes): Run
    requires r.preAnnounce <= r.refresh && TurnAllowed(run.tx, r, sek)
  {
    var (tx', kms, media) := Process(run.tx, r, tick, sek);
    var run1 := Run(tx', NextSeks(run, r, sek), NextGen(run, r), run.wire);
    run1.(wire := run.wire + Labelled(AnnouncedGen(run1), kms) + [Sent(run1.gen, media)])
  }

  // ----- what every step keeps

  /** A key that is new. */
  ghost predicate FreshKey(run: Run, sek: Bytes) {
    run.seks != [] && |sek| == |run.seks[0]| && sek !in run.seks
  }

  /** The assertions hold whenever a packet is processed. */
  lemma AssertionsHold(run: Run, r: Rates, salt: Bytes, sek: Bytes)
    requires Rotating(run, r, salt) && r.Valid() && FreshKey(run, sek)
    ensures TurnAllowed(run.tx, r, sek)
  {
    assert |run.seks[run.gen]| == |run.seks[0]|;
  }

  lemma FlagsOf(kek: Cipher, odd: bool, salt: Bytes, sek: Bytes, altSek: Bytes)
    requires Keys(salt, sek) && |altSek| == |sek| && Permutation(kek)
    ensures !BothIn(SingleKm(kek, odd, salt, sek)) && BothIn(DoubleKm(kek, odd, salt, sek, altSek))
  {
    AssembledShows(kek, odd, salt, sek, None);
    AssembledShows(kek, odd, salt, sek, Some(altSek));
  }

  lemma GoodKeysGrow(salt: Bytes, seks: seq<Bytes>, sek: Bytes)
    requires GoodKeys(salt, seks) && |sek| == |seks[0]| && sek !in seks
    ensures GoodKeys(salt, seks + [sek])
  {
  }

  /** The run between ManageKM and the packet. */
  function Managed(run: Run, r: Rates, sek: Bytes): Run
    requires r.preAnnounce <= r.refresh && TurnAllowed(run.tx, r, sek)
  {
    Run(Turned(run.tx, r, sek), NextSeks(run, r, sek), NextGen(run, r), run.wire)
  }

  lemma SwitchIs(tx: Tx)
    ensures var tx' := Switch(tx);
            && tx'.cur == !tx.cur && tx'.kek == tx.kek
            && tx'.Cur() == tx.Alt().(status := ACTIVE, announce := true)
            && tx'.Alt() == tx.Cur().(status := DEPRECATED)
  {
  }

  lemma SwitchKeeps(run: Run, r: Rates, salt: Bytes, sek: Bytes)
    requires Rotating(run, r, salt) && r.Valid() && FreshKey(run, sek) && TurnAllowed(run.tx, r, sek)
    requires TurnOf(run.tx, r) == DoSwitch
    ensures RotatingAt(Managed(run, r, sek), r, salt, Managed(run, r, sek).tx.Cur().pktCnt + 1)
  {
    SwitchIs(run.tx);
    NextIsOdd(run.gen);
  }

  lemma RefreshIs(tx: Tx, sek: Bytes)
    requires Keys(tx.Cur().salt, sek) && |tx.Cur().sek| == |sek| && Permutation(tx.kek)
    ensures var tx', c := PreSwitch(Refresh(tx, sek)), tx.Cur();
            && tx'.cur == tx.cur && tx'.kek == tx.kek
            && tx'.Cur() == c.(announce := false)
            && tx'.Alt() == TxCtx(KEYED, true, true, c.salt, sek, 0, DoubleKm(tx.kek, !tx.cur, c.salt, sek, c.sek))
  {
    FlagsOf(tx.kek, !tx.cur, tx.Cur().salt, sek, tx.Cur().sek);
  }

  lemma RefreshKeeps(run: Run, r: Rates, salt: Bytes, sek: Bytes)
    requires Rotating(run, r, salt) && r.Valid() && FreshKey(run, sek) && TurnAllowed(run.tx, r, sek)
    requires TurnOf(run.tx, r) == DoRefresh
    ensures RotatingAt(Managed(run, r, sek), r, salt, Managed(run, r, sek).tx.Cur().pktCnt + 1)
  {
    NextIsOdd(run.gen);
    GoodKeysGrow(salt, run.seks, sek);
    RefreshIs(run.tx, sek);
  }

  lemma PostSwitchKeeps(run: Run, r: Rates, salt: Bytes, sek: Bytes)
    requires Rotating(run, r, salt) && r.Valid() && FreshKey(run, sek) && TurnAllowed(run.tx, r, sek)
    requires TurnOf(run.tx, r) == DoPostSwitch
    ensures RotatingAt(Managed(run, r, sek), r, salt, Managed(run, r, sek).tx.Cur().pktCnt + 1)
  {
    FlagsOf(run.tx.kek, run.tx.cur, salt, run.tx.Cur().sek, run.seks[run.gen - 1]);
  }

  lemma StayKeeps(run: Run, r: Rates, salt: Bytes, sek: Bytes)
    requires Rotating(run, r, salt) && r.Valid() && FreshKey(run, sek) && TurnAllowed(run.tx, r, sek)
    requires TurnOf(run.tx, r) == Stay
    ensures RotatingAt(Managed(run, r, sek), r, salt, Managed(run, r, sek).tx.Cur().pktCnt + 1)
  {
  }

  /** The message that is announced in each phase. */
  function TopGen(run: Run): nat {
    if PhaseOf(run) == Announcing then run.gen + 1 else run.gen
  }

  function TopBoth(run: Run): bool {
    PhaseOf(run) != Alone
  }

  /** The context that announces, and its message. */
  lemma AnnouncerIs(run: Run, r: Rates, salt: Bytes, n: nat)
    requires RotatingAt(run, r, salt, n)
    ensures var a := if run.tx.Cur().announce then run.tx.Cur() else run.tx.Alt();
            && a.announce && AnnouncedGen(run) == TopGen(run) < |run.seks|
            && (TopBoth(run) ==> TopGen(run) >= 1)
            && a.km == KmBytes(run.tx.kek, salt, run.seks, TopGen(run), TopBoth(run))
            && (BothIn(a.km) <==> TopBoth(run))
    ensures !(run.tx.Cur().announce && run.tx.Alt().announce)
  {
    var g, seks, kek := TopGen(run), run.seks, run.tx.kek;
    assert |seks[g]| == |seks[0]|;
    if TopBoth(run) {
      assert |seks[g - 1]| == |seks[0]|;
      FlagsOf(kek, IsOdd(g), salt, seks[g], seks[g - 1]);
    } else {
      FlagsOf(kek, IsOdd(g), salt, seks[g], seks[g]);
    }
  }

  lemma TickKeeps(run: Run, r: Rates, salt: Bytes, n: nat, tick: bool)
    requires RotatingAt(run, r, salt, n)
    ensures RotatingAt(run.(tx := Ticked(run.tx, tick)), r, salt, n)
  {
  }

  /** The session after the messages and the packet went out. */
  function SentTx(tx: Tx): Tx {
    var tx1 := InjectKM(tx).0;
    tx1.WithCur(tx1.Cur().(pktCnt := (tx1.Cur().pktCnt + 1) % 0x1_0000_0000))
  }

  /** The counter of packets stays far below its 32 bits. */
  lemma CountBound(run: Run, r: Rates, salt: Bytes, n: nat)
    requires r.Valid() && RotatingAt(run, r, salt, n)
    ensures 1 <= n <= r.refresh + 1 < 0x8000_0000
  {
  }

  lemma NoWrap(n: nat)
    requires n < 0xFFFF_FFFF
    ensures (n + 1) % 0x1_0000_0000 == n + 1
  {
  }

  /** What remains to be sent does not matter, nor does the packet count as such. */
  lemma SameButFlags(run: Run, tx': Tx, r: Rates, salt: Bytes, n: nat, count: nat, w: seq<Item>)
    requires RotatingAt(run, r, salt, n)
    requires tx'.cur == run.tx.cur && tx'.kek == run.tx.kek
    requires tx'.Cur() == run.tx.Cur().(ttsend := false, pktCnt := count)
    requires tx'.Alt() == run.tx.Alt().(ttsend := false)
    ensures RotatingAt(Run(tx', run.seks, run.gen, w), r, salt, n)
  {
  }

  lemma SentTxIs(tx: Tx)
    requires tx.Cur().pktCnt < 0xFFFF_FFFF
    ensures var tx' := SentTx(tx);
            && tx'.cur == tx.cur && tx'.kek == tx.kek
            && tx'.Cur() == tx.Cur().(ttsend := false, pktCnt := tx.Cur().pktCnt + 1)
            && tx'.Alt() == tx.Alt().(ttsend := false)
  {
    NoWrap(tx.Cur().pktCnt);
  }

  lemma SendKeeps(run: Run, r: Rates, salt: Bytes, w: seq<Item>)
    requires r.Valid() && RotatingAt(run, r, salt, run.tx.Cur().pktCnt + 1)
    ensures var run' := Run(SentTx(run.tx), run.seks, run.gen, w);
            && Rotating(run', r, salt) && run'.tx.Cur().pktCnt == run.tx.Cur().pktCnt + 1
            && TopGen(run') == TopGen(run) && TopBoth(run') == TopBoth(run)
            && run'.tx.kek == run.tx.kek && !run'.tx.Cur().ttsend
  {
    var n := run.tx.Cur().pktCnt + 1;
    CountBound(run, r, salt, n);
    SentTxIs(run.tx);
    SameButFlags(run, SentTx(run.tx), r, salt, n, n, w);
  }

  /** What InjectKM sends: the message of the context that announces, if its time has come. */
  lemma InjectedIs(run: Run, r: Rates, salt: Bytes, n: nat)
    requires RotatingAt(run, r, salt, n)
    ensures var a := if run.tx.Cur().announce then run.tx.Cur() else run.tx.Alt();
            InjectKM(run.tx).1 == if a.ttsend then [a.km] else []
  {
    AnnouncerIs(run, r, salt, n);
  }
}
