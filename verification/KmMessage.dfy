/** Keying Material messages: how the sender assembles one, and what the receiver makes of it. */
module KmMessage {
  import opened Packets
  import opened KeyWrap

  const SALT_SZ := 16
  const KEY_MAX_SZ := 32
  const WRAPKEY_SIGN_SZ := 8
  const PBKDF2_SALT_LEN := 8

  // Offsets in a message.
  const OFS_KFLGS := 3
  const OFS_CIPHER := 8
  const OFS_AUTH := 9
  const OFS_SE := 10
  const OFS_SLEN := 14
  const OFS_KLEN := 15
  const OFS_SALT := 16

  const CIPHER_AES_CTR: Byte := 2
  const AUTH_NONE: Byte := 0
  const SE_TSSRT: Byte := 2

  const EVEN_SEK: Byte := 1
  const ODD_SEK: Byte := 2
  const BOTH_SEKS: Byte := 3

  /** What both sides share: a passphrase, which makes a key-encrypting key out of a salt and a key length, or that
      key itself. */
  datatype Secret = Passphrase(derive: (Bytes, nat) -> Cipher) | Preshared(kek: Cipher)

  /** Whatever is derived is a permutation of blocks. */
  ghost predicate Sound(s: Secret) {
    match s
    case Passphrase(derive) => forall salt, n :: Permutation(derive(salt, n))
    case Preshared(kek) => Permutation(kek)
  }

  /** The key-encrypting key for a salt: its last eight bytes count. */
  function Kek(s: Secret, salt: Bytes, sekLen: nat): Cipher {
    match s
    case Preshared(kek) => kek
    case Passphrase(derive) =>
      derive(if |salt| >= PBKDF2_SALT_LEN then salt[|salt| - PBKDF2_SALT_LEN..] else salt, sekLen)
  }

  predicate KeyLength(n: nat) {
    n == 16 || n == 24 || n == 32
  }

  /** A length in units of four bytes, as a byte of a message. */
  function LengthByte(n: nat): Byte {
    n / 4 % 0x100
  }

  function ByteLength(b: Byte): nat {
    4 * b
  }

  function KeyFlag(odd: bool): Byte {
    if odd then ODD_SEK else EVEN_SEK
  }

  function Header(kflgs: Byte, saltLen: nat, sekLen: nat): (h: Bytes)
    ensures |h| == OFS_SALT
  {
    [0x12, 0x20, 0x29, kflgs,
     0, 0, 0, 0,
     CIPHER_AES_CTR, AUTH_NONE, SE_TSSRT, 0,
     0, 0, LengthByte(saltLen), LengthByte(sekLen)]
  }

  /** The keys in a message: the even one first if it holds both. */
  function Seks(odd: bool, sek: Bytes, altSek: Option<Bytes>): Bytes {
    if altSek.None? then sek else if odd then altSek.value + sek else sek + altSek.value
  }

  /** The message for a key of the given parity, alone or together with that of the other parity. */
  function Assemble(kek: Cipher, odd: bool, salt: Bytes, sek: Bytes, altSek: Option<Bytes>): Bytes
    requires |Seks(odd, sek, altSek)| % 8 == 0
  {
    Header(if altSek.Some? then BOTH_SEKS else KeyFlag(odd), |salt|, |sek|) + salt + Wrap(kek, Seks(odd, sek, altSek))
  }

  // ----- the receiver

  const KEYED := 3
  const SARDY := 2

  /** A receiving context. `sekLen` is set before the key itself is. */
  datatype RxCtx = RxCtx(status: nat, salt: Bytes, sekLen: nat, sek: Bytes, km: Bytes)

  /** A receiving session: the even and the odd context, which of them was used last, and the key-encrypting key. */
  datatype Rx = Rx(even: RxCtx, odd: RxCtx, used: Option<bool>, kek: Cipher, secret: Secret) {
    function Ctx(isOdd: bool): RxCtx {
      if isOdd then odd else even
    }

    function With(isOdd: bool, c: RxCtx): Rx {
      if isOdd then this.(odd := c) else this.(even := c)
    }
  }

  const ACCEPTED := 0
  const REFUSED := -1
  const UNMATCHED := -2

  predicate HasBoth(m: Bytes)
    requires |m| > OFS_KFLGS
  {
    m[OFS_KFLGS] % 4 == BOTH_SEKS
  }

  /** The context the key flags name: the odd one whenever the odd key is there. */
  predicate NamesOdd(m: Bytes)
    requires |m| > OFS_KFLGS
  {
    m[OFS_KFLGS] % 4 >= ODD_SEK
  }

  /** The checks of a message before a context is picked. */
  predicate WellMade(m: Bytes) {
    && |m| > OFS_SALT
    && var saltLen, sekLen := ByteLength(m[OFS_SLEN]), ByteLength(m[OFS_KLEN]);
       && saltLen <= SALT_SZ && sekLen <= KEY_MAX_SZ && KeyLength(sekLen)
       && |m| == OFS_SALT + saltLen + (if HasBoth(m) then 2 * sekLen else sekLen) + WRAPKEY_SIGN_SZ
       && m[OFS_CIPHER] == CIPHER_AES_CTR && m[OFS_AUTH] == AUTH_NONE && m[OFS_SE] == SE_TSSRT
  }

  function SaltOf(m: Bytes): Bytes
    requires WellMade(m)
  {
    m[OFS_SALT..OFS_SALT + ByteLength(m[OFS_SLEN])]
  }

  function SekLenOf(m: Bytes): nat
    requires WellMade(m)
  {
    ByteLength(m[OFS_KLEN])
  }

  function WrappedOf(m: Bytes): Bytes
    requires WellMade(m)
  {
    m[OFS_SALT + ByteLength(m[OFS_SLEN])..]
  }

  /** Which context is updated first. */
  predicate Picked(rx: Rx, m: Bytes)
    requires |m| > OFS_KFLGS
  {
    if HasBoth(m) && rx.used.Some? then !rx.used.value else NamesOdd(m)
  }

  /** The salt or the key length is new to the context, so that a key derived from a passphrase changes. */
  predicate ChangesKek(rx: Rx, m: Bytes)
    requires WellMade(m)
  {
    var c := rx.Ctx(Picked(rx, m));
    c.salt != SaltOf(m) || c.sekLen != SekLenOf(m)
  }

  /** What happens before the keys are unwrapped. */
  function Prepared(rx: Rx, m: Bytes): Rx
    requires WellMade(m)
  {
    var isOdd := Picked(rx, m);
    var c := rx.Ctx(isOdd).(salt := SaltOf(m), sekLen := SekLenOf(m));
    if rx.secret.Passphrase? && ChangesKek(rx, m) then
      rx.With(isOdd, c.(status := SARDY)).(kek := Kek(rx.secret, SaltOf(m), SekLenOf(m)))
    else
      rx.With(isOdd, c)
  }

  /** A key is set in a context, and the message is remembered. */
  function Keyed(c: RxCtx, salt: Bytes, sek: Bytes, m: Bytes): RxCtx {
    RxCtx(KEYED, salt, |sek|, sek, m)
  }

  /** The key of the given parity among those in a message. */
  function SekFor(seks: Bytes, sekLen: nat, both: bool, isOdd: bool): Bytes
    requires |seks| == if both then 2 * sekLen else sekLen
  {
    if both && isOdd then seks[sekLen..] else seks[..sekLen]
  }

  lemma WellMadeWrap(m: Bytes)
    requires WellMade(m)
    ensures |WrappedOf(m)| == (if HasBoth(m) then 2 * SekLenOf(m) else SekLenOf(m)) + 8
    ensures |WrappedOf(m)| % 8 == 0
  {
  }

  /** The session after the keys were unwrapped. */
  function Installed(rx: Rx, m: Bytes, seks: Bytes): Rx
    requires WellMade(m) && |seks| == if HasBoth(m) then 2 * SekLenOf(m) else SekLenOf(m)
  {
    var n, salt, isOdd := SekLenOf(m), SaltOf(m), Picked(rx, m);
    var rx1 := rx.With(isOdd, Keyed(rx.Ctx(isOdd), salt, SekFor(seks, n, HasBoth(m), isOdd), m));
    if HasBoth(m) then rx1.With(!isOdd, Keyed(rx.Ctx(!isOdd), salt, SekFor(seks, n, true, !isOdd), m)) else rx1
  }

  /** Rx_ParseKM. */
  function ParseKM(rx: Rx, m: Bytes): (Rx, int)
  {
    if !WellMade(m) then (rx, REFUSED)
    else
      WellMadeWrap(m);
      var rx1 := Prepared(rx, m);
      match Unwrap(rx1.kek, WrappedOf(m))
      case None => (rx1, UNMATCHED)
      case Some(seks) =>
        UnwrapLength(rx1.kek, WrappedOf(m));
        (Installed(rx1, m, seks), ACCEPTED)
  }

  /** The receiver's key-encrypting key will be that of the message when its keys are unwrapped. */
  ghost predicate KekKnown(rx: Rx, m: Bytes)
    requires WellMade(m)
  {
    || (rx.secret.Passphrase? && ChangesKek(rx, m))
    || rx.kek == Kek(rx.secret, SaltOf(m), SekLenOf(m))
  }

  /** Keys and salt as a sender has them. */
  ghost predicate Sendable(salt: Bytes, sek: Bytes, altSek: Option<Bytes>) {
    && |salt| == SALT_SZ && KeyLength(|sek|)
    && (altSek.Some? ==> |altSek.value| == |sek|)
  }

  lemma FlagValues(odd: bool)
    ensures 0 < KeyFlag(odd) % 4 < BOTH_SEKS && (KeyFlag(odd) % 4 >= ODD_SEK <==> odd)
    ensures BOTH_SEKS % 4 == BOTH_SEKS >= ODD_SEK
  {
  }

  lemma Layout(h: Bytes, salt: Bytes, w: Bytes)
    requires |h| == OFS_SALT
    ensures var m := h + salt + w;
            && (forall i :: 0 <= i < OFS_SALT ==> m[i] == h[i])
            && m[OFS_SALT..OFS_SALT + |salt|] == salt && m[OFS_SALT + |salt|..] == w
  {
  }

  /** What the receiver sees in an assembled message. */
  ghost predicate Shows(m: Bytes, both: bool, namesOdd: bool, salt: Bytes, sekLen: nat, w: Bytes) {
    && WellMade(m)
    && (HasBoth(m) <==> both)
    && (NamesOdd(m) <==> namesOdd)
    && SaltOf(m) == salt && SekLenOf(m) == sekLen && WrappedOf(m) == w
    && m[OFS_KFLGS] % 4 != 0 && m[7] == 0
  }

  lemma LaidOutShows(kflgs: Byte, both: bool, namesOdd: bool, salt: Bytes, sekLen: nat, w: Bytes)
    requires |salt| == SALT_SZ && KeyLength(sekLen) && |w| == (if both then 2 * sekLen else sekLen) + WRAPKEY_SIGN_SZ
    requires kflgs % 4 == BOTH_SEKS <==> both
    requires kflgs % 4 >= ODD_SEK <==> namesOdd
    requires kflgs % 4 != 0
    ensures Shows(Header(kflgs, |salt|, sekLen) + salt + w, both, namesOdd, salt, sekLen, w)
  {
    Layout(Header(kflgs, |salt|, sekLen), salt, w);
  }

  lemma AssembledShows(kek: Cipher, odd: bool, salt: Bytes, sek: Bytes, altSek: Option<Bytes>)
    requires Sendable(salt, sek, altSek) && Permutation(kek)
    ensures Shows(Assemble(kek, odd, salt, sek, altSek), altSek.Some?, odd || altSek.Some?, salt, |sek|,
                  Wrap(kek, Seks(odd, sek, altSek)))
  {
    var w := Wrap(kek, Seks(odd, sek, altSek));
    var kflgs := if altSek.Some? then BOTH_SEKS else KeyFlag(odd);
    UnwrapWrap(kek, Seks(odd, sek, altSek));
    FlagValues(odd);
    LaidOutShows(kflgs, altSek.Some?, odd || altSek.Some?, salt, |sek|, w);
  }

  /** The first half and the second half of two keys. */
  lemma SeksParts(odd: bool, sek: Bytes, altSek: Option<Bytes>, isOdd: bool)
    requires altSek.Some? ==> |altSek.value| == |sek|
    requires altSek.Some? || isOdd == odd
    ensures SekFor(Seks(odd, sek, altSek), |sek|, altSek.Some?, isOdd) == if isOdd == odd then sek else altSek.value
  {
    var seks := Seks(odd, sek, altSek);
    if altSek.Some? {
      assert (altSek.value + sek)[..|sek|] == altSek.value && (altSek.value + sek)[|sek|..] == sek;
      assert (sek + altSek.value)[..|sek|] == sek && (sek + altSek.value)[|sek|..] == altSek.value;
    } else {
      assert sek[..|sek|] == sek;
    }
  }

  /** A message whose keys can be unwrapped is installed. */
  lemma ParseInstalls(rx: Rx, m: Bytes, kek: Cipher, seks: Bytes)
    requires WellMade(m) && KekKnown(rx, m) && kek == Kek(rx.secret, SaltOf(m), SekLenOf(m))
    requires Permutation(kek) && |seks| % 8 == 0 && WrappedOf(m) == Wrap(kek, seks)
    ensures |seks| == if HasBoth(m) then 2 * SekLenOf(m) else SekLenOf(m)
    ensures Prepared(rx, m).kek == kek
    ensures ParseKM(rx, m) == (Installed(Prepared(rx, m), m, seks), ACCEPTED)
  {
    WellMadeWrap(m);
    UnwrapWrap(kek, seks);
  }

  /** What is in the contexts after that. */
  lemma InstalledCtx(rx: Rx, m: Bytes, seks: Bytes, isOdd: bool)
    requires WellMade(m) && |seks| == if HasBoth(m) then 2 * SekLenOf(m) else SekLenOf(m)
    ensures var rx' := Installed(Prepared(rx, m), m, seks);
            && rx'.used == rx.used && rx'.secret == rx.secret && rx'.kek == Prepared(rx, m).kek
            && rx'.Ctx(isOdd) ==
               if HasBoth(m) || isOdd == NamesOdd(m)
               then Keyed(rx.Ctx(isOdd), SaltOf(m), SekFor(seks, SekLenOf(m), HasBoth(m), isOdd), m)
               else rx.Ctx(isOdd)
  {
  }

  /** The keys of a message are in the contexts of their own parity; one that holds no key of the message is as
      before. */
  ghost predicate Holds(rx: Rx, rx': Rx, m: Bytes, odd: bool, salt: Bytes, sek: Bytes, altSek: Option<Bytes>) {
    && rx'.Ctx(odd) == RxCtx(KEYED, salt, |sek|, sek, m)
    && rx'.Ctx(!odd) == (if altSek.Some? then RxCtx(KEYED, salt, |sek|, altSek.value, m) else rx.Ctx(!odd))
    && rx'.used == rx.used && rx'.secret == rx.secret
  }

  /** Whatever the receiver used last, an assembled message is accepted and puts each key into the context of its own
      parity; the other context stays as it is when the message holds one key. */
  lemma AssembledParses(rx: Rx, m: Bytes, odd: bool, salt: Bytes, sek: Bytes, altSek: Option<Bytes>)
    requires Sound(rx.secret) && Sendable(salt, sek, altSek)
    requires m == Assemble(Kek(rx.secret, salt, |sek|), odd, salt, sek, altSek)
    requires WellMade(m) ==> KekKnown(rx, m)
    ensures var (rx', code) := ParseKM(rx, m);
            code == ACCEPTED && Holds(rx, rx', m, odd, salt, sek, altSek) && rx'.kek == Kek(rx.secret, salt, |sek|)
  {
    var kek := Kek(rx.secret, salt, |sek|);
    var seks := Seks(odd, sek, altSek);
    AssembledShows(kek, odd, salt, sek, altSek);
    ParseInstalls(rx, m, kek, seks);
    InstalledCtx(rx, m, seks, odd);
    InstalledCtx(rx, m, seks, !odd);
    SeksParts(odd, sek, altSek, odd);
    if altSek.Some? {
      SeksParts(odd, sek, altSek, !odd);
    }
  }

  /** Processing the same message once more changes nothing. */
  lemma ParsedAgain(rx: Rx, m: Bytes, odd: bool, salt: Bytes, sek: Bytes, altSek: Option<Bytes>)
    requires Sound(rx.secret) && Sendable(salt, sek, altSek)
    requires m == Assemble(Kek(rx.secret, salt, |sek|), odd, salt, sek, altSek)
    requires WellMade(m) ==> KekKnown(rx, m)
    ensures ParseKM(ParseKM(rx, m).0, m) == (ParseKM(rx, m).0, ACCEPTED)
  {
    AssembledShows(Kek(rx.secret, salt, |sek|), odd, salt, sek, altSek);
    AssembledParses(rx, m, odd, salt, sek, altSek);
    AssembledParses(ParseKM(rx, m).0, m, odd, salt, sek, altSek);
  }
}
