/** The counter stream that packets are encrypted with: no counter block is used twice under one key, as section 6.5 of
    NIST SP 800-38A demands. */
module CtrStream {
  import SeqNo
  import opened Packets
  import opened KeyWrap
  import opened KmMessage
  import opened KeyRotation
  import opened KeyWire

  const NONCE_SZ := 14
  const BLOCK_SZ := 16

  /** The last `k` bytes of a number, most significant first. */
  function BigEndian(n: nat, k: nat): (b: Bytes)
    ensures |b| == k
  {
    if k == 0 then [] else BigEndian(n / 0x100, k - 1) + [n % 0x100]
  }

  function Xor(a: Bytes, b: Bytes): (r: Bytes)
    requires |a| <= |b|
    ensures |r| == |a| && forall i :: 0 <= i < |a| ==> r[i] == XorByte(a[i], b[i])
  {
    seq(|a|, i requires 0 <= i < |a| => XorByte(a[i], b[i]))
  }

  /** The initial vector of a packet: its index, ten bytes in, xored with the nonce. */
  function Iv(nonce: Bytes, pki: nat): (iv: Bytes)
    requires |nonce| >= NONCE_SZ
    ensures |iv| == BLOCK_SZ
  {
    Xor(Zeros(10) + BigEndian(pki, 4), nonce) + [0, 0]
  }

  /** The counter block number `blk` of a packet: its last two bytes count, and go around. */
  function CounterBlock(iv: Bytes, blk: nat): (b: Bytes)
    requires |iv| == BLOCK_SZ
    ensures |b| == BLOCK_SZ
  {
    if blk == 0 then iv else Bumped(CounterBlock(iv, blk - 1))
  }

  function Bump(b: Byte): Byte {
    if b == 0xFF then 0 else b + 1
  }

  function Bumped(b: Bytes): (b': Bytes)
    requires |b| == BLOCK_SZ
    ensures |b'| == BLOCK_SZ
  {
    var b1 := b[15 := Bump(b[15])];
    if b1[15] == 0 then b1[14 := Bump(b1[14])] else b1
  }

  /** The last two bytes as a number. */
  function Tail(b: Bytes): nat
    requires |b| == BLOCK_SZ
  {
    0x100 * (b[14] as int) + b[15] as int
  }

  lemma BumpedTail(b: Bytes)
    requires |b| == BLOCK_SZ
    ensures Bumped(b)[..NONCE_SZ] == b[..NONCE_SZ]
    ensures Tail(Bumped(b)) == if Tail(b) == 0xFFFF then 0 else Tail(b) + 1
  {
  }

  /** The first bytes of a counter block stay, the last two count. */
  lemma {:induction false} BlockParts(iv: Bytes, blk: nat)
    requires |iv| == BLOCK_SZ && iv[14] == 0 && iv[15] == 0 && blk < 0x1_0000
    ensures CounterBlock(iv, blk)[..NONCE_SZ] == iv[..NONCE_SZ]
    ensures Tail(CounterBlock(iv, blk)) == blk
  {
    if blk > 0 {
      BlockParts(iv, blk - 1);
      BumpedTail(CounterBlock(iv, blk - 1));
    }
  }

  function Power256(k: nat): nat {
    if k == 0 then 1 else 0x100 * Power256(k - 1)
  }

  lemma {:induction false} BigEndianInjective(m: nat, n: nat, k: nat)
    requires m < Power256(k) && n < Power256(k) && BigEndian(m, k) == BigEndian(n, k)
    ensures m == n
  {
    if k > 0 {
      var a, b := BigEndian(m / 0x100, k - 1), BigEndian(n / 0x100, k - 1);
      assert BigEndian(m, k)[..k - 1] == a && BigEndian(n, k)[..k - 1] == b;
      assert BigEndian(m, k)[k - 1] == m % 0x100 && BigEndian(n, k)[k - 1] == n % 0x100;
      BigEndianInjective(m / 0x100, n / 0x100, k - 1);
    }
  }

  lemma XorInjective(a: Bytes, b: Bytes, x: Bytes)
    requires |a| == |b| <= |x| && Xor(a, x) == Xor(b, x)
    ensures a == b
  {
    forall i | 0 <= i < |a| ensures a[i] == b[i] {
      assert Xor(a, x)[i] == Xor(b, x)[i];
      XorTwice(a[i], x[i]);
      XorTwice(b[i], x[i]);
    }
  }

  /** The bytes of an initial vector: ten of the nonce, four of the nonce xored with the packet index, most significant
      byte first, and a counter of two bytes that starts at zero. */
  lemma IvBytes(nonce: Bytes, pki: nat)
    requires |nonce| >= NONCE_SZ && pki < 0x1_0000_0000
    ensures var iv := Iv(nonce, pki);
            && iv[..10] == nonce[..10]
            && iv[10] == XorByte(pki / 0x100_0000, nonce[10]) && iv[11] == XorByte(pki / 0x1_0000 % 0x100, nonce[11])
            && iv[12] == XorByte(pki / 0x100 % 0x100, nonce[12]) && iv[13] == XorByte(pki % 0x100, nonce[13])
            && iv[14] == 0 && iv[15] == 0
  {
    var a := Zeros(10) + BigEndian(pki, 4);
    FourBytes(pki);
    forall i | 0 <= i < 10 ensures Iv(nonce, pki)[i] == nonce[i] {
      ZeroXor(nonce[i]);
      assert a[i] == 0;
    }
  }

  lemma FourBytes(n: nat)
    requires n < 0x1_0000_0000
    ensures var b := BigEndian(n, 4);
            b[0] == n / 0x100_0000 && b[1] == n / 0x1_0000 % 0x100 && b[2] == n / 0x100 % 0x100 && b[3] == n % 0x100
  {
    assert n / 0x100 / 0x100 / 0x100 / 0x100 == 0;
    assert BigEndian(n / 0x100 / 0x100 / 0x100, 1) == [n / 0x100_0000];
    assert BigEndian(n / 0x100 / 0x100, 2) == [n / 0x100_0000, n / 0x1_0000 % 0x100];
    assert BigEndian(n / 0x100, 3) == [n / 0x100_0000, n / 0x1_0000 % 0x100, n / 0x100 % 0x100];
  }

  /** Different packet indexes give different initial vectors, in the part that does not count. */
  lemma IvInjective(nonce: Bytes, pki: nat, pki': nat)
    requires |nonce| >= NONCE_SZ && pki < 0x1_0000_0000 && pki' < 0x1_0000_0000
    requires Iv(nonce, pki)[..NONCE_SZ] == Iv(nonce, pki')[..NONCE_SZ]
    ensures pki == pki'
  {
    var a, b := Zeros(10) + BigEndian(pki, 4), Zeros(10) + BigEndian(pki', 4);
    assert Iv(nonce, pki)[..NONCE_SZ] == Xor(a, nonce) && Iv(nonce, pki')[..NONCE_SZ] == Xor(b, nonce);
    XorInjective(a, b, nonce);
    assert a[10..] == BigEndian(pki, 4) && b[10..] == BigEndian(pki', 4);
    assert Power256(4) == 0x1_0000_0000;
    BigEndianInjective(pki, pki', 4);
  }

  /** Under one nonce a counter block names its packet index and its block number. */
  lemma CounterBlockInjective(nonce: Bytes, pki: nat, blk: nat, pki': nat, blk': nat)
    requires |nonce| >= NONCE_SZ && pki < 0x1_0000_0000 && pki' < 0x1_0000_0000
    requires blk < 0x1_0000 && blk' < 0x1_0000
    requires CounterBlock(Iv(nonce, pki), blk) == CounterBlock(Iv(nonce, pki'), blk')
    ensures pki == pki' && blk == blk'
  {
    BlockParts(Iv(nonce, pki), blk);
    BlockParts(Iv(nonce, pki'), blk');
    IvInjective(nonce, pki, pki');
  }

  // ----- in place

  /** Xor the first `len` bytes of `dst` with `strm`. */
  method XorStream(dst: array<Byte>, strm: Bytes, len: nat)
    requires len <= dst.Length && len <= |strm|
    modifies dst
    ensures dst[..] == Xor(old(dst[..len]), strm) + old(dst[len..])
  {
    ghost var was := dst[..];
    for i := 0 to len
      invariant forall j :: 0 <= j < i ==> dst[j] == XorByte(was[j], strm[j])
      invariant forall j :: i <= j < |was| ==> dst[j] == was[j]
    {
      dst[i] := XorByte(dst[i], strm[i]);
    }
    assert forall j :: 0 <= j < |was| ==> dst[j] == (Xor(was[..len], strm) + was[len..])[j];
  }

  method SetCtrIv(iv: array<Byte>, pki: nat, nonce: Bytes)
    requires iv.Length == BLOCK_SZ && |nonce| >= NONCE_SZ
    modifies iv
    ensures iv[..] == Iv(nonce, pki)
  {
    Copy(iv, 0, Zeros(BLOCK_SZ));
    Copy(iv, 10, BigEndian(pki, 4));
    assert iv[..] == Zeros(10) + BigEndian(pki, 4) + [0, 0];
    XorStream(iv, nonce, NONCE_SZ);
  }

  /** The counter of a packet is increased in place. */
  method BumpInPlace(ctr: array<Byte>)
    requires ctr.Length == BLOCK_SZ
    modifies ctr
    ensures ctr[..] == Bumped(old(ctr[..]))
  {
    ctr[15] := Bump(ctr[15]);
    if ctr[15] == 0 {
      ctr[14] := Bump(ctr[14]);
    }
  }

  /** The counter blocks one after the other. */
  function Blocks(iv: Bytes, n: nat): (s: Bytes)
    requires |iv| == BLOCK_SZ
    ensures |s| == BLOCK_SZ * n
  {
    if n == 0 then [] else Blocks(iv, n - 1) + CounterBlock(iv, n - 1)
  }

  /** Sixteen bytes of the stream are one counter block, each the next one. */
  lemma {:induction false} BlocksAt(iv: Bytes, n: nat, k: nat)
    requires |iv| == BLOCK_SZ && k < n
    ensures Blocks(iv, n)[BLOCK_SZ * k..BLOCK_SZ * k + BLOCK_SZ] == CounterBlock(iv, k)
  {
    if k < n - 1 {
      BlocksAt(iv, n - 1, k);
      assert Blocks(iv, n)[..BLOCK_SZ * (n - 1)] == Blocks(iv, n - 1);
    }
  }

  /** The counter stream for a packet of `len` bytes; a packet too long for `stream` is refused. */
  method BuildStream(stream: array<Byte>, iv: Bytes, len: nat) returns (ok: bool, streamLen: nat)
    requires |iv| == BLOCK_SZ
    modifies stream
    ensures var nblk := (len + 15) / 16;
            && (ok <==> BLOCK_SZ * nblk <= stream.Length)
            && (ok ==> streamLen == BLOCK_SZ * nblk >= len && stream[..streamLen] == Blocks(iv, nblk))
            && (!ok ==> streamLen == 0 && stream[..] == old(stream[..]))
  {
    var nblk := (len + (BLOCK_SZ - 1)) / BLOCK_SZ;
    if nblk * BLOCK_SZ > stream.Length {
      return false, 0;
    }
    var ctr := new Byte[BLOCK_SZ];
    Copy(ctr, 0, iv);
    for blk := 0 to nblk
      invariant ctr[..] == CounterBlock(iv, blk)
      invariant stream[..BLOCK_SZ * blk] == Blocks(iv, blk)
    {
      Copy(stream, BLOCK_SZ * blk, ctr[..]);
      BumpInPlace(ctr);
    }
    return true, BLOCK_SZ * nblk;
  }

  // ----- whole runs

  /** How many packets are on the wire. */
  function PacketCount(w: Wire): nat {
    if w == [] then 0 else PacketCount(w[..|w| - 1]) + if w[|w| - 1].Sent? then 1 else 0
  }

  /** Packets are numbered as they go out, from `isn` on; the number on the wire wraps. */
  function Pki(w: Wire, isn: nat, i: nat): nat
    requires i < |w|
  {
    SeqNo.Wrap(isn + PacketCount(w[..i]))
  }

  lemma {:induction false} StretchCounted(w: Wire, i: nat, k: nat, key: nat)
    requires i <= k <= |w|
    requires forall x :: i <= x < k && w[x].Sent? ==> w[x].gen == key
    ensures PacketCount(w[..k]) - PacketCount(w[..i]) == Count(w[..k], key) - Count(w[..i], key)
    decreases k - i
  {
    if i < k {
      StretchCounted(w, i, k - 1, key);
      assert w[..k][..k - 1] == w[..k - 1];
    }
  }

  lemma {:induction false} CountsGrow(w: Wire, i: nat, k: nat, key: nat)
    requires i <= k <= |w|
    ensures PacketCount(w[..i]) <= PacketCount(w[..k]) && Count(w[..i], key) <= Count(w[..k], key)
    ensures i < k && w[i].Sent? ==> PacketCount(w[..i]) < PacketCount(w[..k])
    decreases k - i
  {
    if i < k {
      CountsGrow(w, i, k - 1, key);
      assert w[..k][..k - 1] == w[..k - 1];
    }
  }

  /** Two packets with one key are no further apart than that key has packets. */
  lemma PacketsCounted(w: Wire, g: nat, i: nat, j: nat)
    requires KeysInTurn(w, g) && i < j < |w| && w[i].Sent? && w[j].Sent? && w[i].gen == w[j].gen
    ensures 0 < PacketCount(w[..j]) - PacketCount(w[..i]) <= Count(w, w[i].gen)
  {
    var key := w[i].gen;
    forall x | i <= x < j && w[x].Sent? ensures w[x].gen == key {
      assert i == x || w[i].gen <= w[x].gen;
      assert w[x].gen <= w[j].gen;
    }
    StretchCounted(w, i, j, key);
    CountsGrow(w, i, j, key);
    CountsGrow(w, j, |w|, key);
    assert w[..|w|] == w;
  }

  lemma WrapInjective(u: nat, v: nat)
    requires u < v && v - u <= SeqNo.MAX_SEQ_NO
    ensures SeqNo.Wrap(u) != SeqNo.Wrap(v)
  {
    SeqNo.WrapIsMod(u);
    SeqNo.WrapIsMod(v);
  }

  /** One key, two packets, two packet indexes. */
  lemma PkiInjective(w: Wire, g: nat, isn: nat, i: nat, j: nat)
    requires KeysInTurn(w, g) && i < j < |w| && w[i].Sent? && w[j].Sent? && w[i].gen == w[j].gen
    requires Count(w, w[i].gen) <= SeqNo.MAX_SEQ_NO
    ensures Pki(w, isn, i) != Pki(w, isn, j)
  {
    PacketsCounted(w, g, i, j);
    WrapInjective(isn + PacketCount(w[..i]), isn + PacketCount(w[..j]));
  }

  /** The counter block number `blk` of item `i` on the wire. */
  function BlockOf(w: Wire, isn: nat, i: nat, blk: nat): Bytes
    requires i < |w| && w[i].Sent? && |w[i].media.salt| >= NONCE_SZ
  {
    CounterBlock(Iv(w[i].media.salt, Pki(w, isn, i)), blk)
  }

  lemma SameKeySameNumber(w: Wire, kek: Cipher, salt: Bytes, seks: seq<Bytes>, i: nat, j: nat)
    requires GoodKeys(salt, seks) && ItemsOk(w, kek, salt, seks)
    requires i < |w| && j < |w| && w[i].Sent? && w[j].Sent? && w[i].media.sek == w[j].media.sek
    ensures w[i].gen == w[j].gen && w[i].media.salt == w[j].media.salt == salt
  {
    assert ItemOk(w[i], kek, salt, seks) && ItemOk(w[j], kek, salt, seks);
  }

  /** Whatever the run and wherever the sequence numbers start: no two packets, and no two blocks of one packet, meet in
      a counter block under one key. */
  lemma NoBlockRepeats(kek: Cipher, r: Rates, salt: Bytes, sek0: Bytes, ins: Inputs, run: Run,
                       isn: nat, i: nat, a: nat, j: nat, b: nat)
    requires Keys(salt, sek0) && Permutation(kek) && r.Valid() && Leads(InitRun(kek, salt, sek0), r, ins, run)
    requires i < |run.wire| && j < |run.wire| && run.wire[i].Sent? && run.wire[j].Sent?
    requires run.wire[i].media.sek == run.wire[j].media.sek
    requires |run.wire[i].media.salt| >= NONCE_SZ && |run.wire[j].media.salt| >= NONCE_SZ
    requires a < 0x1_0000 && b < 0x1_0000
    requires BlockOf(run.wire, isn, i, a) == BlockOf(run.wire, isn, j, b)
    ensures i == j && a == b
  {
    InitWire(kek, r, salt, sek0);
    RunKeeps(InitRun(kek, salt, sek0), r, salt, ins, run);
    RotationIsSafe(kek, r, salt, sek0, ins, run);
    var w := run.wire;
    SameKeySameNumber(w, run.tx.kek, salt, run.seks, i, j);
    CounterBlockInjective(salt, Pki(w, isn, i), a, Pki(w, isn, j), b);
    if i < j {
      PkiInjective(w, run.gen, isn, i, j);
    } else if j < i {
      PkiInjective(w, run.gen, isn, j, i);
    }
  }
}
