/** A sending session (HaiCrypt_Create with the transmit flag): two contexts that are updated in place. */
module HaiCryptTx {
  import opened Packets
  import opened KeyWrap
  import opened KmMessage
  import opened KeyRotation

  class Context {
    const odd: bool
    var status: nat
    var announce: bool
    var ttsend: bool
    var salt: Bytes
    var sek: Bytes
    var pktCnt: nat
    var km: Bytes

    constructor (odd: bool)
      ensures this.odd == odd && Val() == TxCtx(SARDY, false, false, [], [], 0, [])
    {
      this.odd := odd;
      status, announce, ttsend := SARDY, false, false;
      salt, sek, pktCnt, km := [], [], 0, [];
    }

    ghost function Val(): TxCtx
      reads this
    {
      TxCtx(status, announce, ttsend, salt, sek, pktCnt, km)
    }

    /** Assemble the keying message of this context, with the other key if one is given. */
    method AsmKM(kek: Cipher, altSek: Option<Bytes>)
      requires Keys(salt, sek) && (altSek.Some? ==> |altSek.value| == |sek|)
      modifies this`km
      ensures km == Assemble(kek, odd, salt, sek, altSek)
    {
      var kflgs := if altSek.Some? then BOTH_SEKS else KeyFlag(odd);
      var seks := Seks(odd, sek, altSek);
      var wrapped := new Byte[|seks| + WRAPKEY_SIGN_SZ];
      var ok := WrapKey(kek, wrapped, seks);
      km := Header(kflgs, |salt|, |sek|) + salt + wrapped[..];
    }
  }

  class TxSession {
    const even: Context
    const odd: Context
    const kek: Cipher
    const refreshRate: nat
    const preAnnounce: nat
    var ctx: Context

    ghost predicate Valid()
      reads this
    {
      even != odd && !even.odd && odd.odd && (ctx == even || ctx == odd)
    }

    ghost function Abs(): Tx
      reads this, even, odd
    {
      Tx(even.Val(), odd.Val(), ctx == odd, kek)
    }

    ghost function R(): Rates {
      Rates(refreshRate, preAnnounce)
    }

    function Alt(): Context
      reads this
    {
      if ctx == odd then even else odd
    }

    constructor (kek: Cipher, refreshRate: nat, preAnnounce: nat, salt: Bytes, sek: Bytes)
      requires Keys(salt, sek)
      ensures Valid() && fresh(even) && fresh(odd) && R() == Rates(refreshRate, preAnnounce)
      ensures Abs() == Create(kek, salt, sek)
    {
      var e := new Context(false);
      var o := new Context(true);
      even, odd, ctx := e, o, e;
      this.kek, this.refreshRate, this.preAnnounce := kek, refreshRate, preAnnounce;
      e.salt, e.sek, e.pktCnt := salt, sek, 1;
      e.AsmKM(kek, None);
      e.announce, e.ttsend, e.status := true, true, ACTIVE;
    }

    /** The other context gets a new key, and a message with both. */
    method TxRefresh(sek: Bytes)
      requires Valid() && ctx.status == ACTIVE && Alt().status >= SARDY
      requires Keys(ctx.salt, sek) && |ctx.sek| == |sek|
      modifies even, odd
      ensures Abs() == Refresh(old(Abs()), sek)
    {
      var newCtx := Alt();
      newCtx.salt := ctx.salt;
      newCtx.sek := sek;
      newCtx.AsmKM(kek, Some(ctx.sek));
      newCtx.pktCnt := 0;
      newCtx.status := KEYED;
    }

    method TxPreSwitch()
      requires Valid() && ctx.status == ACTIVE && Alt().status == KEYED
      modifies even, odd
      ensures Abs() == PreSwitch(old(Abs()))
    {
      Alt().announce := true;
      Alt().ttsend := true;
      if BothIn(Alt().km) {
        ctx.announce := false;
      }
    }

    method TxSwitch()
      requires Valid() && Alt().status >= KEYED
      modifies this`ctx, even, odd
      ensures Valid() && Abs() == Switch(old(Abs()))
    {
      ctx.status := DEPRECATED;
      Alt().status := ACTIVE;
      Alt().announce := true;
      ctx := Alt();
    }

    method TxPostSwitch()
      requires Valid() && Keys(ctx.salt, ctx.sek)
      modifies even, odd
      ensures Abs() == PostSwitch(old(Abs()))
    {
      var oldCtx := Alt();
      oldCtx.announce := false;
      oldCtx.status := SARDY;
      if BothIn(ctx.km) {
        ctx.AsmKM(kek, None);
      }
    }

    /** What happens to the keys before a packet is sent. */
    method TurnKeys(sek: Bytes)
      requires Valid() && preAnnounce <= refreshRate && TurnAllowed(Abs(), R(), sek)
      modifies this`ctx, even, odd
      ensures Valid() && Abs() == Turned(old(Abs()), R(), sek)
    {
      if ctx.pktCnt > refreshRate || ctx.pktCnt == 0 {
        TxSwitch();
      } else if ctx.pktCnt > refreshRate - preAnnounce && !Alt().announce {
        TxRefresh(sek);
        TxPreSwitch();
      } else if Alt().status == DEPRECATED && ctx.pktCnt > preAnnounce {
        TxPostSwitch();
      }
    }

    /** `tick` tells that the announcing period is over. */
    method TxManageKM(tick: bool, sek: Bytes)
      requires Valid() && preAnnounce <= refreshRate && TurnAllowed(Abs(), R(), sek)
      modifies this`ctx, even, odd
      ensures Valid() && Abs() == ManageKM(old(Abs()), R(), tick, sek)
    {
      TurnKeys(sek);
      if tick {
        if even.announce {
          even.ttsend := true;
        }
        if odd.announce {
          odd.ttsend := true;
        }
      }
    }

    method TxInjectKM() returns (out: seq<Bytes>)
      requires Valid()
      modifies even, odd
      ensures (Abs(), out) == InjectKM(old(Abs()))
    {
      out := [];
      ghost var tx := Abs();
      ghost var fromEven: seq<Bytes> := if tx.even.ttsend then [tx.even.km] else [];
      for i := 0 to 2
        invariant Valid()
        invariant Abs() == tx.(even := if i >= 1 then tx.even.(ttsend := false) else tx.even,
                               odd := if i >= 2 then tx.odd.(ttsend := false) else tx.odd)
        invariant out == if i == 0 then [] else if i == 1 then fromEven else fromEven + InjectKM(tx).1[|fromEven|..]
      {
        var c := if i == 0 then even else odd;
        if c.ttsend {
          out := out + [c.km];
          c.ttsend := false;
        }
      }
    }

    method CountPacket() returns (media: Media)
      requires Valid()
      modifies even, odd
      ensures Valid() && media == Media(Abs().cur, Abs().Cur().salt, Abs().Cur().sek)
      ensures Abs() == old(Abs()).WithCur(old(Abs()).Cur().(pktCnt := (old(Abs()).Cur().pktCnt + 1) % 0x1_0000_0000))
    {
      media := Media(ctx.odd, ctx.salt, ctx.sek);
      ctx.pktCnt := (ctx.pktCnt + 1) % 0x1_0000_0000;
    }

    /** One packet is processed; encryption itself always succeeds here. */
    method TxProcess(tick: bool, sek: Bytes) returns (kms: seq<Bytes>, media: Media)
      requires Valid() && preAnnounce <= refreshRate && TurnAllowed(Abs(), R(), sek)
      modifies this`ctx, even, odd
      ensures Valid() && (Abs(), kms, media) == Process(old(Abs()), R(), tick, sek)
    {
      TxManageKM(tick, sek);
      kms := TxInjectKM();
      media := CountPacket();
    }
  }
}
