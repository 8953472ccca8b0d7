/** A receiving session (HaiCrypt_Create without the transmit flag): contexts that keying messages update in place. */
module HaiCryptRx {
  import opened Packets
  import opened KeyWrap
  import opened KmMessage
  import opened KeyRotation
  import opened KeyAgreement

  class Context {
    const odd: bool
    var status: nat
    var salt: Bytes
    var sekLen: nat
    var sek: Bytes
    var km: Bytes

    constructor (odd: bool)
      ensures this.odd == odd && Val() == FRESH_CTX
    {
      this.odd := odd;
      status, salt, sekLen, sek, km := SARDY, [], 0, [], [];
    }

    ghost function Val(): RxCtx
      reads this
    {
      RxCtx(status, salt, sekLen, sek, km)
    }

    method Rekey(sek: Bytes)
      modifies this`sek, this`sekLen, this`status
      ensures this.sek == sek && sekLen == |sek| && status == KEYED
    {
      this.sek := sek;
      sekLen := |sek|;
      status := KEYED;
    }
  }

  /** The keys that were wrapped in `w`. */
  method UnwrapBytes(kek: Cipher, w: Bytes) returns (seks: Option<Bytes>)
    requires 16 <= |w| < 0x1_0000_0000 && |w| % 8 == 0
    ensures seks == Unwrap(kek, w)
    ensures seks.Some? ==> |seks.value| == |w| - 8
  {
    var n := |w| - WRAPKEY_SIGN_SZ;
    var out := new Byte[n];
    var ok := UnwrapKey(kek, out, w);
    if !ok {
      return None;
    }
    UnwrapLength(kek, w);
    seks := Some(out[..n]);
  }

  class RxSession {
    const even: Context
    const odd: Context
    const secret: Secret
    var ctx: Context?
    var kek: Cipher

    ghost predicate Valid()
      reads this
    {
      even != odd && !even.odd && odd.odd && (ctx == null || ctx == even || ctx == odd)
    }

    ghost function Abs(): Rx
      reads this, even, odd
    {
      Rx(even.Val(), odd.Val(), if ctx == null then None else Some(ctx == odd), kek, secret)
    }

    constructor (secret: Secret, kek: Cipher)
      ensures Valid() && fresh(even) && fresh(odd) && Abs() == CreateRx(secret, kek)
    {
      var e := new Context(false);
      var o := new Context(true);
      even, odd, ctx := e, o, null;
      this.secret := secret;
      this.kek := if secret.Preshared? then secret.kek else kek;
    }

    function Pick(isOdd: bool): (c: Context)
      reads this
      ensures c == if isOdd then odd else even
    {
      if isOdd then odd else even
    }

    /** Salt and key length are taken over, and a key derived from a passphrase follows them. */
    method Prepare(c: Context, m: Bytes)
      requires Valid() && WellMade(m) && c == Pick(Picked(Abs(), m))
      modifies this`kek, even, odd
      ensures Valid() && Abs() == Prepared(old(Abs()), m)
    {
      var doPbkdf := false;
      if c.salt != SaltOf(m) {
        c.salt := SaltOf(m);
        doPbkdf := true;
      }
      if c.sekLen != SekLenOf(m) {
        c.sekLen := SekLenOf(m);
        doPbkdf := true;
      }
      if secret.Passphrase? && doPbkdf {
        kek := Kek(secret, c.salt, c.sekLen);
        c.status := SARDY;
      }
    }

    /** The keys are set, first in the context picked, then in the other if there are two. */
    method Install(c: Context, m: Bytes, seks: Bytes)
      requires Valid() && WellMade(m) && c == Pick(Picked(Abs(), m)) && c.salt == SaltOf(m)
      requires |seks| == if HasBoth(m) then 2 * SekLenOf(m) else SekLenOf(m)
      modifies even, odd
      ensures Valid() && Abs() == Installed(old(Abs()), m, seks)
    {
      var n, both := SekLenOf(m), HasBoth(m);
      c.Rekey(SekFor(seks, n, both, c.odd));
      c.km := m;
      if both {
        var alt := Pick(!c.odd);
        alt.salt := SaltOf(m);
        alt.Rekey(SekFor(seks, n, true, alt.odd));
        alt.km := m;
      }
    }

    method PickContext(m: Bytes) returns (c: Context)
      requires Valid() && |m| > OFS_KFLGS
      ensures c == Pick(Picked(Abs(), m))
    {
      if HasBoth(m) && ctx != null {
        return if ctx == odd then even else odd;
      }
      return Pick(NamesOdd(m));
    }

    method UnwrapSeks(m: Bytes) returns (seks: Option<Bytes>)
      requires WellMade(m)
      ensures |WrappedOf(m)| >= 8 && |WrappedOf(m)| % 8 == 0 && seks == Unwrap(kek, WrappedOf(m))
      ensures seks.Some? ==> |seks.value| == if HasBoth(m) then 2 * SekLenOf(m) else SekLenOf(m)
    {
      WellMadeWrap(m);
      seks := UnwrapBytes(kek, WrappedOf(m));
    }

    method RxParseKM(m: Bytes) returns (code: int)
      requires Valid()
      modifies this`kek, even, odd
      ensures Valid() && (Abs(), code) == ParseKM(old(Abs()), m)
    {
      if !WellMade(m) {
        return REFUSED;
      }
      var c := PickContext(m);
      Prepare(c, m);
      var seks := UnwrapSeks(m);
      if seks.None? {
        return UNMATCHED;
      }
      Install(c, m, seks.value);
      return ACCEPTED;
    }

    /** A message arrives; a keying message that is known already is skipped. */
    method RxProcess(m: Bytes) returns (code: int)
      requires Valid()
      modifies this, even, odd
      ensures Valid() && (Abs(), code) == ReceiveKM(old(Abs()), m)
    {
      if |m| < OFS_SALT {
        return REFUSED;
      }
      var c := Pick(DataFlags(m) / 2 == 1);
      if !IsKm(m) {
        if DataFlags(m) == 0 || DataFlags(m) == 3 {
          return REFUSED;
        }
        ctx := c;
        return TAKEN_AS_DATA;
      }
      if m[OFS_SE] != SE_TSSRT || m[OFS_KFLGS] % 4 == 0 {
        return REFUSED;
      }
      if c.status < KEYED || |m| != |c.km| || c.km != m {
        code := RxParseKM(m);
      } else {
        code := ACCEPTED;
      }
    }

    /** A packet arrives: the context its key flag names is used, and `ok` if it decrypts the packet right. */
    method RxData(media: Media) returns (ok: bool)
      requires Valid()
      modifies this`ctx
      ensures Valid() && Abs() == ReceiveMedia(old(Abs()), media) && ok == Decrypts(Abs(), media)
    {
      var c := Pick(media.odd);
      ctx := c;
      ok := c.status >= KEYED && c.salt == media.salt && c.sek == media.sek;
    }
  }
}
