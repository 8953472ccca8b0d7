/** What the receiver answers to a keying message, told from its bytes: refused, of another secret, or accepted. */
module KmLaws {
  import opened Packets
  import opened KeyWrap
  import opened KmMessage
  import opened KeyAgreement

  /** How many keys a message says it holds. */
  function KeyCount(m: Bytes): nat
    requires |m| > 16
  {
    if m[3] % 4 == 3 then 2 else 1
  }

  /** Lengths and options of a message: salt and key length in words, the length of the whole, cipher, authentication
      and encapsulation. */
  predicate HeaderOk(m: Bytes) {
    && |m| > 16
    && ByteLength(m[14]) <= 16 && (ByteLength(m[15]) == 16 || ByteLength(m[15]) == 24 || ByteLength(m[15]) == 32)
    && |m| == 16 + ByteLength(m[14]) + KeyCount(m) * ByteLength(m[15]) + 8
    && m[8] == 2 && m[9] == 0 && m[10] == 2
  }

  lemma HeaderIs(m: Bytes)
    ensures WellMade(m) <==> HeaderOk(m)
    ensures HeaderOk(m) ==> SaltOf(m) == m[16..16 + ByteLength(m[14])] && SekLenOf(m) == ByteLength(m[15])
    ensures HeaderOk(m) ==> WrappedOf(m) == m[16 + ByteLength(m[14])..]
    ensures HeaderOk(m) ==> (HasBoth(m) <==> KeyCount(m) == 2) && (NamesOdd(m) <==> m[3] % 4 >= 2)
  {
  }

  /** The key-encrypting key for a message: that of the session, unless it comes from a passphrase and the message
      brings a new salt or key length to the context it is for. A message with two keys is for the context not used
      last. */
  function KekFor(rx: Rx, m: Bytes): Cipher
    requires HeaderOk(m)
  {
    var isOdd := if KeyCount(m) == 2 && rx.used.Some? then !rx.used.value else m[3] % 4 >= 2;
    var c := if isOdd then rx.odd else rx.even;
    var salt, n := m[16..16 + ByteLength(m[14])], ByteLength(m[15]);
    if rx.secret.Preshared? || (c.salt == salt && c.sekLen == n) then rx.kek
    else rx.secret.derive(if |salt| >= 8 then salt[|salt| - 8..] else salt, n)
  }

  /** The message holds just these keys, wrapped with that key. */
  ghost predicate Wraps(rx: Rx, m: Bytes, seks: Bytes)
    requires HeaderOk(m)
  {
    |seks| % 8 == 0 && m[16 + ByteLength(m[14])..] == Wrap(KekFor(rx, m), seks)
  }

  ghost predicate HasKeys(rx: Rx, m: Bytes)
    requires HeaderOk(m)
  {
    exists seks :: Wraps(rx, m, seks)
  }

  /** The even key is the first of two; each key is in the context of its parity, with salt and message. */
  ghost predicate KeysSet(rx: Rx, rx': Rx, m: Bytes, seks: Bytes)
    requires HeaderOk(m)
  {
    var salt, n := m[16..16 + ByteLength(m[14])], ByteLength(m[15]);
    && |seks| == KeyCount(m) * n
    && rx'.used == rx.used && rx'.secret == rx.secret && rx'.kek == KekFor(rx, m)
    && if KeyCount(m) == 2 then
         && rx'.even == RxCtx(KEYED, salt, n, seks[..n], m)
         && rx'.odd == RxCtx(KEYED, salt, n, seks[n..], m)
       else if m[3] % 4 >= 2 then rx'.odd == RxCtx(KEYED, salt, n, seks, m) && rx'.even == rx.even
       else rx'.even == RxCtx(KEYED, salt, n, seks, m) && rx'.odd == rx.odd
  }

  /** No key and no cached message changed. */
  ghost predicate KeysKept(rx: Rx, rx': Rx) {
    && rx'.even.sek == rx.even.sek && rx'.even.km == rx.even.km
    && rx'.odd.sek == rx.odd.sek && rx'.odd.km == rx.odd.km
    && rx'.used == rx.used && rx'.secret == rx.secret
  }

  /** Before the keys are unwrapped only the key-encrypting key, and salt, length and status of one context change. */
  lemma PreparedIs(rx: Rx, m: Bytes)
    requires HeaderOk(m)
    ensures WellMade(m) && Prepared(rx, m).kek == KekFor(rx, m) && KeysKept(rx, Prepared(rx, m))
  {
    HeaderIs(m);
  }

  lemma InstalledIs(rx: Rx, m: Bytes, seks: Bytes)
    requires HeaderOk(m) && WellMade(m) && |seks| == if HasBoth(m) then 2 * SekLenOf(m) else SekLenOf(m)
    ensures KeysSet(rx, Installed(Prepared(rx, m), m, seks), m, seks)
  {
    HeaderIs(m);
    PreparedIs(rx, m);
    InstalledCtx(rx, m, seks, false);
    InstalledCtx(rx, m, seks, true);
    assert seks[..|seks|] == seks;
  }

  /** The keys that unwrap were wrapped. */
  lemma UnwrapsSome(rx: Rx, m: Bytes)
    requires HeaderOk(m) && Permutation(KekFor(rx, m))
    requires var w := m[16 + ByteLength(m[14])..];
             |w| >= 8 && |w| % 8 == 0 && Unwrap(KekFor(rx, m), w).Some?
    ensures HasKeys(rx, m)
  {
    var kek, w := KekFor(rx, m), m[16 + ByteLength(m[14])..];
    WrapUnwrap(kek, w);
    assert Wraps(rx, m, Unwrap(kek, w).value);
  }

  /** What unwraps are the keys that were wrapped. */
  lemma UnwrapsIff(rx: Rx, m: Bytes)
    requires HeaderOk(m) && Permutation(KekFor(rx, m))
    ensures var w := m[16 + ByteLength(m[14])..];
            && |w| >= 8 && |w| % 8 == 0
            && (Unwrap(KekFor(rx, m), w).Some? <==> HasKeys(rx, m))
            && forall seks :: Wraps(rx, m, seks) ==> Unwrap(KekFor(rx, m), w) == Some(seks)
  {
    HeaderIs(m);
    WellMadeWrap(m);
    var kek, w := KekFor(rx, m), m[16 + ByteLength(m[14])..];
    if Unwrap(kek, w).Some? {
      UnwrapsSome(rx, m);
    }
    forall seks | Wraps(rx, m, seks) ensures Unwrap(kek, w) == Some(seks) {
      UnwrapWrap(kek, seks);
    }
  }

  /** Each answer has its condition: refused are the messages with a wrong header, and they change nothing; of another
      secret are those that hold no keys wrapped with the receiver's key, and they change no key; the others are
      accepted, and their keys are set. */
  lemma ParseKMLaw(rx: Rx, m: Bytes)
    requires HeaderOk(m) ==> Permutation(KekFor(rx, m))
    ensures var (rx', code) := ParseKM(rx, m);
            && (code == -1 <==> !HeaderOk(m))
            && (code == 0 <==> HeaderOk(m) && HasKeys(rx, m))
            && (code == -2 <==> HeaderOk(m) && !HasKeys(rx, m))
            && (code == -1 ==> rx' == rx)
            && (code == -2 ==> KeysKept(rx, rx'))
            && (code == 0 ==> forall seks :: Wraps(rx, m, seks) ==> KeysSet(rx, rx', m, seks))
  {
    HeaderIs(m);
    if HeaderOk(m) {
      PreparedIs(rx, m);
      UnwrapsIff(rx, m);
      ParseSplits(rx, m);
    }
  }

  /** The last step: what was unwrapped is installed. */
  lemma ParseSplits(rx: Rx, m: Bytes)
    requires HeaderOk(m) && WellMade(m)
    ensures var w := m[16 + ByteLength(m[14])..];
            && |w| >= 8 && |w| % 8 == 0
            && match Unwrap(KekFor(rx, m), w)
               case None => ParseKM(rx, m) == (Prepared(rx, m), -2)
               case Some(seks) => ParseKM(rx, m).1 == 0 && KeysSet(rx, ParseKM(rx, m).0, m, seks)
  {
    HeaderIs(m);
    PreparedIs(rx, m);
    WellMadeWrap(m);
    var kek, w := KekFor(rx, m), m[16 + ByteLength(m[14])..];
    if Unwrap(kek, w).Some? {
      UnwrapLength(kek, w);
      InstalledIs(rx, m, Unwrap(kek, w).value);
    }
  }

  /** The start of a keying message: version 1, packet type 2, the manufacturer's sign, encapsulation, and some key. */
  predicate StartOk(m: Bytes) {
    && |m| >= 16
    && m[0] == 0x12 && m[1] == 0x20 && m[2] == 0x29 && m[10] == 2 && m[3] % 4 != 0
  }

  /** The context that is asked has this message already. */
  predicate Cached(rx: Rx, m: Bytes)
    requires |m| >= 16
  {
    var c := if m[7] / 16 % 2 == 1 then rx.odd else rx.even;
    c.status >= KEYED && c.km == m
  }

  lemma StartIs(m: Bytes)
    requires |m| >= 16
    ensures IsKm(m) <==> m[0] == 0x12 && m[1] == 0x20 && m[2] == 0x29
    ensures DataFlags(m) / 2 == 1 <==> m[7] / 16 % 2 == 1
  {
  }

  /** Not a keying message, with the key flag of a packet. */
  predicate IsPacket(m: Bytes) {
    |m| >= 16 && !(m[0] == 0x12 && m[1] == 0x20 && m[2] == 0x29) && 0 < m[7] / 8 % 4 < 3
  }

  /** The answer to whatever arrives as a message: a keying message is accepted if it is cached or holds the receiver's
      keys; it is of another secret only if parsing says so; a packet selects the context of its key flag; what is
      refused or cached changes nothing. */
  lemma ReceiveKMLaw(rx: Rx, m: Bytes)
    requires HeaderOk(m) ==> Permutation(KekFor(rx, m))
    ensures var (rx', code) := ReceiveKM(rx, m);
            && (code == 0 <==> StartOk(m) && (Cached(rx, m) || (HeaderOk(m) && HasKeys(rx, m))))
            && (code == -2 <==> StartOk(m) && !Cached(rx, m) && HeaderOk(m) && !HasKeys(rx, m))
            && (code == 1 <==> IsPacket(m))
            && (code == 1 ==> rx' == rx.(used := Some(m[7] / 8 % 4 == 2)))
            && (code == -1 ==> rx' == rx)
            && (code == -2 ==> KeysKept(rx, rx'))
            && (code == 0 || code == 1 || code == -1 || code == -2)
            && (StartOk(m) && Cached(rx, m) ==> rx' == rx)
            && (StartOk(m) && !Cached(rx, m) ==> rx' == ParseKM(rx, m).0)
  {
    ParseKMLaw(rx, m);
    if |m| >= 16 {
      StartIs(m);
    }
  }
}
