/** The receiver's side of the key rotation, and when both sides agree on a key. */
module KeyAgreement {
  import opened Packets
  import opened KeyWrap
  import opened KmMessage
  import opened KeyRotation
  import opened KeyWire

  const FRESH_CTX := RxCtx(SARDY, [], 0, [], [])

  /** HaiCrypt_Create for a receiver. */
  function CreateRx(secret: Secret, kek: Cipher): Rx {
    Rx(FRESH_CTX, FRESH_CTX, None, if secret.Preshared? then secret.kek else kek, secret)
  }

  const TAKEN_AS_DATA := 1

  /** Version, packet type and signature of a keying message. */
  predicate IsKm(m: Bytes)
    requires |m| >= OFS_SALT
  {
    m[0] / 0x10 == 1 && m[0] % 0x10 == 2 && m[1] == 0x20 && m[2] == 0x29
  }

  /** The key flags of what is not a keying message: two bits of its second word. */
  function DataFlags(m: Bytes): int
    requires |m| >= OFS_SALT
  {
    m[7] / 8 % 4
  }

  /** Rx_Process: what has no header of a keying message is taken for a packet. A keying message is skipped if one
      context has it already; which context is asked depends on the same bits as for packets, and there every assembled
      message has 0. */
  function ReceiveKM(rx: Rx, m: Bytes): (Rx, int) {
    if |m| < OFS_SALT then (rx, REFUSED)
    else if !IsKm(m) then
      if DataFlags(m) == 0 || DataFlags(m) == 3 then (rx, REFUSED)
      else (rx.(used := Some(DataFlags(m) == 2)), TAKEN_AS_DATA)
    else if m[OFS_SE] != SE_TSSRT || m[OFS_KFLGS] % 4 == 0 then (rx, REFUSED)
    else
      var c := rx.Ctx(DataFlags(m) / 2 == 1);
      if c.status < KEYED || c.km != m then ParseKM(rx, m) else (rx, ACCEPTED)
  }

  /** Rx_Process for a packet: the context of its key flag is used, and it decrypts what was encrypted with its key
      and salt. */
  function ReceiveMedia(rx: Rx, media: Media): Rx {
    rx.(used := Some(media.odd))
  }

  predicate Decrypts(rx: Rx, media: Media) {
    var c := rx.Ctx(media.odd);
    c.status >= KEYED && c.salt == media.salt && c.sek == media.sek
  }

  function Receive(rx: Rx, it: Item): Rx {
    match it
    case Km(_, _, bytes) => ReceiveKM(rx, bytes).0
    case Sent(_, media) => ReceiveMedia(rx, media)
  }

  // ----- what the receiver knows

  /** Which key each context holds. */
  datatype Known = Known(even: Option<nat>, odd: Option<nat>) {
    function Gen(isOdd: bool): Option<nat> {
      if isOdd then odd else even
    }

    function With(isOdd: bool, gen: nat): Known {
      if isOdd then this.(odd := Some(gen)) else this.(even := Some(gen))
    }
  }

  /** Both sides have the same secret, from which the sender's key-encrypting key comes. */
  ghost predicate Shared(secret: Secret, kek: Cipher, salt: Bytes, seks: seq<Bytes>) {
    GoodKeys(salt, seks) && Sound(secret) && kek == Kek(secret, salt, |seks[0]|)
  }

  ghost predicate CtxHolds(c: RxCtx, isOdd: bool, gen: Option<nat>, salt: Bytes, seks: seq<Bytes>) {
    match gen
    case None => c == FRESH_CTX
    case Some(g) =>
      && g < |seks| && IsOdd(g) == isOdd
      && c.status == KEYED && c.salt == salt && c.sek == seks[g] && c.sekLen == |seks[g]|
  }

  ghost predicate RxHolds(rx: Rx, known: Known, kek: Cipher, salt: Bytes, seks: seq<Bytes>) {
    && CtxHolds(rx.even, false, known.even, salt, seks)
    && CtxHolds(rx.odd, true, known.odd, salt, seks)
    && (known.even.Some? || known.odd.Some? || rx.secret.Preshared? ==> rx.kek == kek)
  }

  /** Each context holds the latest key of its parity that arrived. */
  ghost predicate Latest(known: Known, arrived: Wire) {
    forall isOdd: bool ::
      match known.Gen(isOdd)
      case None => forall k: nat :: Introduced(arrived, k) ==> IsOdd(k) != isOdd
      case Some(g) =>
        && Introduced(arrived, g) && IsOdd(g) == isOdd
        && forall k: nat :: Introduced(arrived, k) && IsOdd(k) == isOdd ==> k <= g
  }

  /** What is known after a message was taken in. */
  function Learned(known: Known, gen: nat, both: bool): Known {
    var k1 := known.With(IsOdd(gen), gen);
    if both && gen >= 1 then k1.With(!IsOdd(gen), gen - 1) else k1
  }

  lemma AltOf(kek: Cipher, salt: Bytes, seks: seq<Bytes>, gen: nat, both: bool)
    requires GoodKeys(salt, seks) && gen < |seks| && (both ==> gen >= 1)
    ensures var alt := if both then Some(seks[gen - 1]) else None;
            && Sendable(salt, seks[gen], alt) && |seks[gen]| == |seks[0]|
            && KmBytes(kek, salt, seks, gen, both) == Assemble(kek, IsOdd(gen), salt, seks[gen], alt)
  {
    assert |seks[gen]| == |seks[0]|;
    if both {
      assert |seks[gen - 1]| == |seks[0]|;
    }
  }

  function AltSek(seks: seq<Bytes>, gen: nat, both: bool): Option<Bytes>
    requires gen < |seks| && (both ==> gen >= 1)
  {
    if both then Some(seks[gen - 1]) else None
  }

  lemma HoldsLearns(rx: Rx, rx': Rx, m: Bytes, known: Known, kek: Cipher, salt: Bytes, seks: seq<Bytes>, gen: nat,
                    both: bool)
    requires GoodKeys(salt, seks) && RxHolds(rx, known, kek, salt, seks) && gen < |seks| && (both ==> gen >= 1)
    requires Holds(rx, rx', m, IsOdd(gen), salt, seks[gen], AltSek(seks, gen, both)) && rx'.kek == kek
    ensures RxHolds(rx', Learned(known, gen, both), kek, salt, seks)
    ensures rx'.secret == rx.secret && rx'.even.km == (if both || !IsOdd(gen) then m else rx.even.km)
  {
    if both {
      NextIsOdd(gen - 1);
      assert |seks[gen - 1]| == |seks[0]|;
    }
  }

  /** A message of the sender is taken in. */
  lemma ParseLearns(rx: Rx, known: Known, kek: Cipher, salt: Bytes, seks: seq<Bytes>, gen: nat, both: bool)
    requires Shared(rx.secret, kek, salt, seks) && RxHolds(rx, known, kek, salt, seks)
    requires gen < |seks| && (both ==> gen >= 1)
    ensures var m := KmBytes(kek, salt, seks, gen, both);
            var rx' := ParseKM(rx, m).0;
            && RxHolds(rx', Learned(known, gen, both), kek, salt, seks)
            && rx'.secret == rx.secret
            && rx'.even.km == (if both || !IsOdd(gen) then m else rx.even.km)
  {
    var alt := AltSek(seks, gen, both);
    var m := KmBytes(kek, salt, seks, gen, both);
    AltOf(kek, salt, seks, gen, both);
    AssembledShows(kek, IsOdd(gen), salt, seks[gen], alt);
    assert KekKnown(rx, m);
    AssembledParses(rx, m, IsOdd(gen), salt, seks[gen], alt);
    HoldsLearns(rx, ParseKM(rx, m).0, m, known, kek, salt, seks, gen, both);
  }

  /** The key of the given parity in a message that holds two. */
  function OfParity(gen: nat, isOdd: bool): nat
    requires gen >= 1
  {
    if IsOdd(gen) == isOdd then gen else gen - 1
  }

  lemma SameParts(g: nat, g': nat)
    requires g >= 1 && g' >= 1
    requires OfParity(g, false) == OfParity(g', false) && OfParity(g, true) == OfParity(g', true)
    ensures g == g'
  {
  }

  lemma SeksDiffer(salt: Bytes, seks: seq<Bytes>, i: nat, j: nat)
    requires GoodKeys(salt, seks) && i < |seks| && j < |seks|
    ensures seks[i] == seks[j] ==> i == j
  {
  }

  lemma PartsOfBoth(salt: Bytes, seks: seq<Bytes>, g: nat, isOdd: bool)
    requires GoodKeys(salt, seks) && 1 <= g < |seks|
    ensures |Seks(IsOdd(g), seks[g], Some(seks[g - 1]))| == 2 * |seks[0]|
    ensures SekFor(Seks(IsOdd(g), seks[g], Some(seks[g - 1])), |seks[0]|, true, isOdd) == seks[OfParity(g, isOdd)]
  {
    assert |seks[g]| == |seks[0]| && |seks[g - 1]| == |seks[0]|;
    SeksParts(IsOdd(g), seks[g], Some(seks[g - 1]), isOdd);
  }

  lemma SameBoth(salt: Bytes, seks: seq<Bytes>, g: nat, g': nat)
    requires GoodKeys(salt, seks) && 1 <= g < |seks| && 1 <= g' < |seks|
    requires Seks(IsOdd(g), seks[g], Some(seks[g - 1])) == Seks(IsOdd(g'), seks[g'], Some(seks[g' - 1]))
    ensures g == g'
  {
    PartsOfBoth(salt, seks, g, false);
    PartsOfBoth(salt, seks, g, true);
    PartsOfBoth(salt, seks, g', false);
    PartsOfBoth(salt, seks, g', true);
    SeksDiffer(salt, seks, OfParity(g, false), OfParity(g', false));
    SeksDiffer(salt, seks, OfParity(g, true), OfParity(g', true));
    SameParts(g, g');
  }

  /** The keys in the message that introduces key `g`. */
  function SeksIn(seks: seq<Bytes>, g: nat, both: bool): Bytes
    requires g < |seks| && (both ==> g >= 1)
  {
    Seks(IsOdd(g), seks[g], AltSek(seks, g, both))
  }

  /** What a message shows of the keys it introduces. */
  lemma KmShows(kek: Cipher, salt: Bytes, seks: seq<Bytes>, g: nat, both: bool)
    requires GoodKeys(salt, seks) && Permutation(kek) && g < |seks| && (both ==> g >= 1)
    ensures |SeksIn(seks, g, both)| % 8 == 0
    ensures Shows(KmBytes(kek, salt, seks, g, both), both, IsOdd(g) || both, salt, |seks[0]|,
                  Wrap(kek, SeksIn(seks, g, both)))
  {
    AltOf(kek, salt, seks, g, both);
    AssembledShows(kek, IsOdd(g), salt, seks[g], if both then Some(seks[g - 1]) else None);
  }

  /** Two messages with the same bytes introduce the same keys. */
  lemma KmInjective(kek: Cipher, salt: Bytes, seks: seq<Bytes>, g: nat, both: bool, g': nat, both': bool)
    requires GoodKeys(salt, seks) && Permutation(kek)
    requires g < |seks| && g' < |seks| && (both ==> g >= 1) && (both' ==> g' >= 1)
    requires KmBytes(kek, salt, seks, g, both) == KmBytes(kek, salt, seks, g', both')
    ensures g == g' && both == both'
  {
    KmShows(kek, salt, seks, g, both);
    KmShows(kek, salt, seks, g', both');
    WrapInjective(kek, SeksIn(seks, g, both), SeksIn(seks, g', both'));
    if both {
      SameBoth(salt, seks, g, g');
    } else {
      SeksDiffer(salt, seks, g, g');
    }
  }

  /** No message that arrived is ahead of this one. */
  ghost predicate InOrder(arrived: Wire, it: Item)
    requires it.Km?
  {
    forall i :: 0 <= i < |arrived| && arrived[i].Km? ==> Rank(arrived[i]) <= Rank(it)
  }

  /** What arrived introduces no later key than this message. */
  lemma NoneLater(arrived: Wire, it: Item, k: nat)
    requires it.Km? && InOrder(arrived, it) && Introduced(arrived, k)
    ensures k <= it.gen
  {
    var i :| 0 <= i < |arrived| && Introduces(arrived[i], k);
    assert Rank(arrived[i]) <= Rank(it);
  }

  lemma LearnedLatest(known: Known, arrived: Wire, it: Item)
    requires Latest(known, arrived) && it.Km? && (it.both ==> it.gen >= 1) && InOrder(arrived, it)
    ensures Latest(Learned(known, it.gen, it.both), arrived + [it])
  {
    var known' := Learned(known, it.gen, it.both);
    if it.both {
      NextIsOdd(it.gen - 1);
    }
    forall k: nat
      ensures Introduced(arrived + [it], k) <==> Introduced(arrived, k) || Introduces(it, k)
      ensures Introduced(arrived, k) ==> k <= it.gen
    {
      IntroducedAppend(arrived, it, k);
      if Introduced(arrived, k) {
        NoneLater(arrived, it, k);
      }
    }
    forall isOdd: bool
      ensures match known'.Gen(isOdd)
              case None => forall k: nat :: Introduced(arrived + [it], k) ==> IsOdd(k) != isOdd
              case Some(g) =>
                && Introduced(arrived + [it], g) && IsOdd(g) == isOdd
                && forall k: nat :: Introduced(arrived + [it], k) && IsOdd(k) == isOdd ==> k <= g
    {
      assert known'.Gen(isOdd) ==
             if it.both then Some(OfParity(it.gen, isOdd))
             else if IsOdd(it.gen) == isOdd then Some(it.gen)
             else known.Gen(isOdd);
      if it.both && IsOdd(it.gen) != isOdd {
        assert Introduces(it, it.gen - 1);
      }
    }
  }

  // ----- arrivals

  /** What the receiver remembers: which keys it holds, and the last message with an even key. */
  datatype Memory = Memory(known: Known, last: Option<Item>)

  predicate SameMessage(a: Item, b: Item) {
    a.Km? && b.Km? && a.gen == b.gen && a.both == b.both
  }

  /** A message is skipped if it is the last one with an even key; any other one is taken in. */
  function Learn(mem: Memory, it: Item): Memory {
    if it.Sent? || (mem.last.Some? && SameMessage(mem.last.value, it)) then mem
    else Memory(Learned(mem.known, it.gen, it.both), if it.both || !IsOdd(it.gen) then Some(it) else mem.last)
  }

  /** What is remembered of the items that arrived. */
  function Held(arrived: Wire): Memory {
    if arrived == [] then Memory(Known(None, None), None)
    else Learn(Held(arrived[..|arrived| - 1]), arrived[|arrived| - 1])
  }

  /** The receiver is as its memory says. */
  ghost predicate RxHas(rx: Rx, mem: Memory, kek: Cipher, salt: Bytes, seks: seq<Bytes>)
    requires GoodKeys(salt, seks)
  {
    && RxHolds(rx, mem.known, kek, salt, seks)
    && (mem.last.None? <==> mem.known.even.None?)
    && (mem.last.Some? ==>
        mem.last.value.Km? && ItemOk(mem.last.value, kek, salt, seks) && rx.even.km == mem.last.value.bytes)
  }

  /** The bytes of a message that Rx_Process looks at. */
  lemma HeaderBytes(kek: Cipher, salt: Bytes, seks: seq<Bytes>, gen: nat, both: bool)
    requires GoodKeys(salt, seks) && gen < |seks| && (both ==> gen >= 1) && Permutation(kek)
    ensures var m := KmBytes(kek, salt, seks, gen, both);
            |m| > OFS_SALT && IsKm(m) && m[OFS_SE] == SE_TSSRT && m[OFS_KFLGS] % 4 != 0 && m[7] == 0
  {
    AltOf(kek, salt, seks, gen, both);
    AssembledShows(kek, IsOdd(gen), salt, seks[gen], if both then Some(seks[gen - 1]) else None);
  }

  lemma ReceiveIs(rx: Rx, m: Bytes)
    requires |m| > OFS_SALT && IsKm(m) && m[OFS_SE] == SE_TSSRT && m[OFS_KFLGS] % 4 != 0 && m[7] == 0
    ensures ReceiveKM(rx, m).0 == if rx.even.status < KEYED || rx.even.km != m then ParseKM(rx, m).0 else rx
  {
  }

  /** The bytes of two messages are the same exactly if the messages are. */
  lemma SameBytes(a: Item, b: Item, kek: Cipher, salt: Bytes, seks: seq<Bytes>)
    requires GoodKeys(salt, seks) && Permutation(kek) && a.Km? && b.Km?
    requires ItemOk(a, kek, salt, seks) && ItemOk(b, kek, salt, seks)
    ensures a.bytes == b.bytes <==> SameMessage(a, b)
  {
    if a.bytes == b.bytes {
      KmInjective(kek, salt, seks, a.gen, a.both, b.gen, b.both);
    }
  }

  lemma KmArrives(rx: Rx, mem: Memory, it: Item, kek: Cipher, salt: Bytes, seks: seq<Bytes>)
    requires Shared(rx.secret, kek, salt, seks) && Permutation(kek) && RxHas(rx, mem, kek, salt, seks)
    requires it.Km? && ItemOk(it, kek, salt, seks)
    ensures RxHas(Receive(rx, it), Learn(mem, it), kek, salt, seks) && Receive(rx, it).secret == rx.secret
  {
    HeaderBytes(kek, salt, seks, it.gen, it.both);
    ReceiveIs(rx, it.bytes);
    ParseLearns(rx, mem.known, kek, salt, seks, it.gen, it.both);
    if mem.last.Some? {
      SameBytes(mem.last.value, it, kek, salt, seks);
    }
  }

  lemma ItemArrives(rx: Rx, mem: Memory, it: Item, kek: Cipher, salt: Bytes, seks: seq<Bytes>)
    requires Shared(rx.secret, kek, salt, seks) && Permutation(kek) && RxHas(rx, mem, kek, salt, seks)
    requires ItemOk(it, kek, salt, seks)
    ensures RxHas(Receive(rx, it), Learn(mem, it), kek, salt, seks) && Receive(rx, it).secret == rx.secret
  {
    if it.Km? {
      KmArrives(rx, mem, it, kek, salt, seks);
    }
  }

  /** The receiver after all these items arrived. */
  function After(rx: Rx, arrived: Wire): Rx {
    if arrived == [] then rx else Receive(After(rx, arrived[..|arrived| - 1]), arrived[|arrived| - 1])
  }

  lemma CreateHas(secret: Secret, kek0: Cipher, kek: Cipher, salt: Bytes, seks: seq<Bytes>)
    requires Shared(secret, kek, salt, seks)
    ensures RxHas(CreateRx(secret, kek0), Memory(Known(None, None), None), kek, salt, seks)
  {
  }

  /** Whatever arrives of what the sender sent, in whatever order and however often: the receiver holds the keys of its
      memory. */
  lemma {:induction false} ArrivalsHeld(rx: Rx, arrived: Wire, kek: Cipher, salt: Bytes, seks: seq<Bytes>)
    requires Shared(rx.secret, kek, salt, seks) && Permutation(kek)
    requires RxHas(rx, Memory(Known(None, None), None), kek, salt, seks)
    requires ItemsOk(arrived, kek, salt, seks)
    ensures RxHas(After(rx, arrived), Held(arrived), kek, salt, seks) && After(rx, arrived).secret == rx.secret
    decreases |arrived|
  {
    if arrived != [] {
      var pre, it := arrived[..|arrived| - 1], arrived[|arrived| - 1];
      ArrivalsHeld(rx, pre, kek, salt, seks);
      ItemArrives(After(rx, pre), Held(pre), it, kek, salt, seks);
    }
  }

  /** A packet decrypts exactly when the key remembered for its context is its key. */
  lemma DecryptsIff(rx: Rx, mem: Memory, it: Item, kek: Cipher, salt: Bytes, seks: seq<Bytes>)
    requires GoodKeys(salt, seks) && RxHas(rx, mem, kek, salt, seks)
    requires it.Sent? && ItemOk(it, kek, salt, seks)
    ensures Decrypts(rx, it.media) <==> mem.known.Gen(IsOdd(it.gen)) == Some(it.gen)
  {
    match mem.known.Gen(IsOdd(it.gen))
    case None =>
    case Some(g) => SeksDiffer(salt, seks, g, it.gen);
  }

  // ----- what is remembered

  /** The message holds a key for the same context as key `g`, and it is not `g`. */
  predicate Replaces(it: Item, g: nat) {
    && it.Km?
    && if it.both && it.gen >= 1 then OfParity(it.gen, IsOdd(g)) != g
       else it.gen != g && IsOdd(it.gen) == IsOdd(g)
  }

  /** Item `i` is the first with key `g`, and no later one replaces that key. */
  ghost predicate FirstAndStays(arrived: Wire, i: nat, g: nat) {
    && i < |arrived| && Introduces(arrived[i], g)
    && (forall j :: 0 <= j < i ==> !Introduces(arrived[j], g))
    && forall j :: i < j < |arrived| ==> !Replaces(arrived[j], g)
  }

  lemma {:induction false} LastArrived(arrived: Wire)
    ensures Held(arrived).last.Some? ==> Held(arrived).last.value in arrived
  {
    if arrived != [] {
      LastArrived(arrived[..|arrived| - 1]);
    }
  }

  lemma LearnKeeps(mem: Memory, it: Item, g: nat)
    requires mem.known.Gen(IsOdd(g)) == Some(g) && !Replaces(it, g) && (it.Km? && it.both ==> it.gen >= 1)
    ensures Learn(mem, it).known.Gen(IsOdd(g)) == Some(g)
  {
    if it.Km? && it.both {
      NextIsOdd(it.gen - 1);
    }
  }

  lemma LearnTakes(mem: Memory, it: Item, g: nat)
    requires Introduces(it, g) && (it.both ==> it.gen >= 1)
    requires mem.last.Some? ==> !SameMessage(mem.last.value, it)
    ensures Learn(mem, it).known.Gen(IsOdd(g)) == Some(g)
  {
    if it.both {
      NextIsOdd(it.gen - 1);
    }
  }

  lemma {:induction false} FirstIsHeld(arrived: Wire, i: nat, g: nat)
    requires FirstAndStays(arrived, i, g)
    requires forall x :: x in arrived && x.Km? && x.both ==> x.gen >= 1
    ensures Held(arrived).known.Gen(IsOdd(g)) == Some(g)
    decreases |arrived|
  {
    var n := |arrived| - 1;
    var pre, it := arrived[..n], arrived[n];
    assert it in arrived;
    if i < n {
      FirstIsHeld(pre, i, g);
      LearnKeeps(Held(pre), it, g);
    } else {
      LastArrived(pre);
      if Held(pre).last.Some? && SameMessage(Held(pre).last.value, it) {
        var j :| 0 <= j < n && arrived[j] == Held(pre).last.value;
        assert Introduces(arrived[j], g);
        assert false;
      }
      LearnTakes(Held(pre), it, g);
    }
  }

  /** A message skipped as known can leave an older key in place: after both keys 1 and 2, then key 3, the first message
      once more does not bring key 1 back. */
  lemma RepeatIsSkipped(a: Item, b: Item)
    requires a.Km? && a.gen == 2 && a.both && b.Km? && b.gen == 3 && !b.both
    ensures Held([a, b, a]).known == Known(Some(2), Some(3))
  {
    assert [a, b, a][..2] == [a, b] && [a, b][..1] == [a] && [a][..0] == [];
    assert Held([a]) == Memory(Known(Some(2), Some(1)), Some(a));
    assert Held([a, b]) == Memory(Known(Some(2), Some(3)), Some(a));
  }

  // ----- messages that arrive in order

  /** Messages arrive in the order of the rotation, again or not at all; packets arrive in any order. */
  ghost predicate KmsInOrder(arrived: Wire) {
    forall i, j :: 0 <= i < j < |arrived| && arrived[i].Km? && arrived[j].Km? ==> Rank(arrived[i]) <= Rank(arrived[j])
  }

  lemma SkippedLatest(known: Known, arrived: Wire, it: Item, last: Item)
    requires Latest(known, arrived) && last in arrived && SameMessage(last, it)
    ensures Latest(known, arrived + [it])
  {
    forall k: nat ensures Introduced(arrived + [it], k) <==> Introduced(arrived, k) {
      IntroducedAppend(arrived, it, k);
      if Introduces(it, k) {
        assert Introduces(last, k);
      }
    }
  }

  lemma SentLatest(known: Known, arrived: Wire, it: Item)
    requires Latest(known, arrived) && it.Sent?
    ensures Latest(known, arrived + [it])
  {
    forall k: nat ensures Introduced(arrived + [it], k) <==> Introduced(arrived, k) {
      IntroducedAppend(arrived, it, k);
    }
  }

  lemma {:induction false} HeldIsLatest(arrived: Wire)
    requires KmsInOrder(arrived)
    requires forall x :: x in arrived && x.Km? && x.both ==> x.gen >= 1
    ensures Latest(Held(arrived).known, arrived)
    decreases |arrived|
  {
    if arrived != [] {
      var n := |arrived| - 1;
      var pre, it := arrived[..n], arrived[n];
      assert pre + [it] == arrived && it in arrived;
      HeldIsLatest(pre);
      LastArrived(pre);
      if it.Sent? {
        SentLatest(Held(pre).known, pre, it);
      } else if Held(pre).last.Some? && SameMessage(Held(pre).last.value, it) {
        SkippedLatest(Held(pre).known, pre, it, Held(pre).last.value);
      } else {
        LearnedLatest(Held(pre).known, pre, it);
      }
    }
  }

  /** No later key for the same context arrived. */
  ghost predicate NoneReplaces(arrived: Wire, gen: nat) {
    forall k: nat :: Introduced(arrived, k) && IsOdd(k) == IsOdd(gen) ==> k <= gen
  }

  lemma LatestIff(known: Known, arrived: Wire, gen: nat)
    requires Latest(known, arrived)
    ensures known.Gen(IsOdd(gen)) == Some(gen) <==> Introduced(arrived, gen) && NoneReplaces(arrived, gen)
  {
  }

  lemma ArrivedOk(w: Wire, arrived: Wire, kek: Cipher, salt: Bytes, seks: seq<Bytes>)
    requires GoodKeys(salt, seks) && ItemsOk(w, kek, salt, seks)
    requires forall i :: 0 <= i < |arrived| ==> arrived[i] in w
    ensures ItemsOk(arrived, kek, salt, seks)
    ensures forall x :: x in arrived && x.Km? && x.both ==> x.gen >= 1
  {
    forall i | 0 <= i < |arrived| ensures ItemOk(arrived[i], kek, salt, seks) {
      var j :| 0 <= j < |w| && w[j] == arrived[i];
    }
  }

  /** Exactly what decrypts, over every run of the sender and whatever arrives of it, in any order and any number of
      times: the packets of the keys remembered. */
  lemma DecryptsWhatIsHeld(secret: Secret, kek0: Cipher, r: Rates, salt: Bytes, sek0: Bytes, ins: Inputs, run: Run,
                           arrived: Wire, it: Item)
    requires Keys(salt, sek0) && Sound(secret) && r.Valid()
    requires Leads(InitRun(Kek(secret, salt, |sek0|), salt, sek0), r, ins, run)
    requires forall i :: 0 <= i < |arrived| ==> arrived[i] in run.wire
    requires it in run.wire && it.Sent?
    ensures Decrypts(After(CreateRx(secret, kek0), arrived), it.media) <==>
            Held(arrived).known.Gen(IsOdd(it.gen)) == Some(it.gen)
    ensures forall x :: x in arrived && x.Km? && x.both ==> x.gen >= 1
  {
    var kek := Kek(secret, salt, |sek0|);
    SenderItems(secret, r, salt, sek0, ins, run);
    ArrivedOk(run.wire, arrived, kek, salt, run.seks);
    CreateHas(secret, kek0, kek, salt, run.seks);
    ArrivalsHeld(CreateRx(secret, kek0), arrived, kek, salt, run.seks);
    DecryptsIff(After(CreateRx(secret, kek0), arrived), Held(arrived), it, kek, salt, run.seks);
  }

  /** Key agreement: a packet is decrypted with the key and salt it was encrypted with if a message with its key was
      received, and since the first such message none that replaces the key, whatever else arrived in whatever order. */
  lemma KeysAgree(secret: Secret, kek0: Cipher, r: Rates, salt: Bytes, sek0: Bytes, ins: Inputs, run: Run,
                  arrived: Wire, it: Item, i: nat)
    requires Keys(salt, sek0) && Sound(secret) && r.Valid()
    requires Leads(InitRun(Kek(secret, salt, |sek0|), salt, sek0), r, ins, run)
    requires forall i :: 0 <= i < |arrived| ==> arrived[i] in run.wire
    requires it in run.wire && it.Sent? && FirstAndStays(arrived, i, it.gen)
    ensures Decrypts(After(CreateRx(secret, kek0), arrived), it.media)
  {
    DecryptsWhatIsHeld(secret, kek0, r, salt, sek0, ins, run, arrived, it);
    FirstIsHeld(arrived, i, it.gen);
  }

  /** When messages arrive in their order, a packet decrypts if and only if a message with its key arrived and none
      with a later key for the same context did. */
  lemma KeysAgreeInOrder(secret: Secret, kek0: Cipher, r: Rates, salt: Bytes, sek0: Bytes, ins: Inputs, run: Run,
                         arrived: Wire, it: Item)
    requires Keys(salt, sek0) && Sound(secret) && r.Valid()
    requires Leads(InitRun(Kek(secret, salt, |sek0|), salt, sek0), r, ins, run)
    requires (forall i :: 0 <= i < |arrived| ==> arrived[i] in run.wire) && KmsInOrder(arrived)
    requires it in run.wire && it.Sent?
    ensures Decrypts(After(CreateRx(secret, kek0), arrived), it.media) <==>
            Introduced(arrived, it.gen) && NoneReplaces(arrived, it.gen)
  {
    DecryptsWhatIsHeld(secret, kek0, r, salt, sek0, ins, run, arrived, it);
    HeldIsLatest(arrived);
    LatestIff(Held(arrived).known, arrived, it.gen);
  }

  lemma SenderItems(secret: Secret, r: Rates, salt: Bytes, sek0: Bytes, ins: Inputs, run: Run)
    requires Keys(salt, sek0) && Sound(secret) && r.Valid()
    requires Leads(InitRun(Kek(secret, salt, |sek0|), salt, sek0), r, ins, run)
    ensures var kek := Kek(secret, salt, |sek0|);
            && Permutation(kek) && Shared(secret, kek, salt, run.seks)
            && ItemsOk(run.wire, kek, salt, run.seks)
            && KmsInOrder(run.wire) && FifoOk(run.wire)
  {
    var kek := Kek(secret, salt, |sek0|);
    KekSound(secret, salt, |sek0|);
    InitWire(kek, r, salt, sek0);
    RunKeeps(InitRun(kek, salt, sek0), r, salt, ins, run);
    FirstKeyStays(InitRun(kek, salt, sek0), r, ins, run);
  }

  lemma KekSound(secret: Secret, salt: Bytes, n: nat)
    requires Sound(secret)
    ensures Permutation(Kek(secret, salt, n))
  {
  }

  lemma {:induction false} FirstKeyStays(run: Run, r: Rates, ins: Inputs, run': Run)
    requires Leads(run, r, ins, run') && run.seks != []
    ensures run'.seks != [] && run'.seks[0] == run.seks[0] && run'.tx.kek == run.tx.kek
    decreases |ins|
  {
    if ins != [] {
      FirstKeyStays(Step(run, r, ins[0].0, ins[0].1), r, ins[1..], run');
    }
  }

  // ----- a channel that keeps the order and loses packets, but no messages

  /** What arrives when the packets at the positions `lost` are lost. */
  function Survivors(w: Wire, lost: set<nat>): Wire {
    if w == [] then []
    else
      var n := |w| - 1;
      Survivors(w[..n], lost) + if w[n].Sent? && n in lost then [] else [w[n]]
  }

  lemma {:induction false} SurvivorsIntroduce(w: Wire, lost: set<nat>, k: nat)
    ensures Introduced(Survivors(w, lost), k) <==> Introduced(w, k)
  {
    if w != [] {
      var n := |w| - 1;
      SurvivorsIntroduce(w[..n], lost, k);
      assert w == w[..n] + [w[n]];
      IntroducedAppend(w[..n], w[n], k);
      IntroducedAppend(Survivors(w[..n], lost), w[n], k);
      assert Survivors(w[..n], lost) + [] == Survivors(w[..n], lost);
    }
  }

  lemma {:induction false} SurvivorsIn(w: Wire, lost: set<nat>)
    ensures forall x :: x in Survivors(w, lost) ==> x in w
  {
    if w != [] {
      SurvivorsIn(w[..|w| - 1], lost);
    }
  }

  lemma InOrderAppend(pre: Wire, it: Item)
    requires KmsInOrder(pre) && (it.Km? ==> InOrder(pre, it))
    ensures KmsInOrder(pre + [it])
  {
  }

  /** Survivors are in the order of the wire. */
  lemma {:induction false} SurvivorsOk(w: Wire, lost: set<nat>)
    requires KmsInOrder(w)
    ensures KmsInOrder(Survivors(w, lost))
  {
    if w != [] {
      var n := |w| - 1;
      var pre := Survivors(w[..n], lost);
      SurvivorsOk(w[..n], lost);
      SurvivorsIn(w[..n], lost);
      if w[n].Km? {
        forall i | 0 <= i < |pre| && pre[i].Km? ensures Rank(pre[i]) <= Rank(w[n]) {
          assert pre[i] in w[..n];
        }
      }
      InOrderAppend(pre, w[n]);
      assert pre + [] == pre;
    }
  }

  lemma SameParityBefore(k: nat, g: nat)
    requires k <= g + 1 && IsOdd(k) == IsOdd(g)
    ensures k <= g
  {
  }

  lemma SurvivorsFit(w: Wire, lost: set<nat>, n: nat)
    requires FifoOk(w) && n < |w| && w[n].Sent?
    ensures Introduced(Survivors(w[..n], lost), w[n].gen) && NoneReplaces(Survivors(w[..n], lost), w[n].gen)
  {
    var g := w[n].gen;
    SurvivorsIntroduce(w[..n], lost, g);
    forall k: nat | Introduced(Survivors(w[..n], lost), k) && IsOdd(k) == IsOdd(g) ensures k <= g {
      SurvivorsIntroduce(w[..n], lost, k);
      var i :| 0 <= i < n && Introduces(w[..n][i], k);
      assert w[i].Km? && w[i].gen <= g + 1;
      SameParityBefore(k, g);
    }
  }

  /** What survives of the beginning of the wire may be taken as arrived. */
  lemma SurvivorsArrive(w: Wire, lost: set<nat>, n: nat)
    requires KmsInOrder(w) && n <= |w|
    ensures var arrived := Survivors(w[..n], lost);
            (forall i :: 0 <= i < |arrived| ==> arrived[i] in w) && KmsInOrder(arrived)
  {
    SurvivorsOk(w[..n], lost);
    SurvivorsIn(w[..n], lost);
    var arrived := Survivors(w[..n], lost);
    forall i | 0 <= i < |arrived| ensures arrived[i] in w {
      assert arrived[i] in arrived;
      assert arrived[i] in w[..n];
    }
  }

  /** Over such a channel every packet that arrives is decrypted with the key and salt it was encrypted with. */
  lemma InOrderAllDecrypt(secret: Secret, kek0: Cipher, r: Rates, salt: Bytes, sek0: Bytes, ins: Inputs, run: Run,
                          lost: set<nat>, n: nat)
    requires Keys(salt, sek0) && Sound(secret) && r.Valid()
    requires Leads(InitRun(Kek(secret, salt, |sek0|), salt, sek0), r, ins, run)
    requires n < |run.wire| && run.wire[n].Sent?
    ensures Decrypts(After(CreateRx(secret, kek0), Survivors(run.wire[..n], lost)), run.wire[n].media)
  {
    SenderItems(secret, r, salt, sek0, ins, run);
    SurvivorsArrive(run.wire, lost, n);
    SurvivorsFit(run.wire, lost, n);
    KeysAgreeInOrder(secret, kek0, r, salt, sek0, ins, run, Survivors(run.wire[..n], lost), run.wire[n]);
  }
}
